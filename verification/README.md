# The rtl_stream pipeline in Dafny

`rtl_stream` copies one capture stream into a bounded ring, lets many workers read it at
their own pace, channelizes it or transforms it, frames the result and sends it over TCP to
clients that parse it again. Every layer claims that boundaries do not matter: callback
sizes, slot sizes, call sizes, partial sends and fragmented receives. This project models
those layers, proves each claim for all inputs, and joins them end to end: what a client's
program reads is a prefix of the channelizer over the bytes published since it subscribed
(`Pipeline.PublishedToReader`), and once it has caught up all of it (`Pipeline.AllRead`); or it
is spectra of one gap-free piece of them (`Pipeline.StretchesPublished`,
`FftSession.OneStretch`, `FftSession.Received`). The tuner's register cache, its PLL arithmetic and the block exchange
of `getopt` are modelled beside it.

How the parts fit together:

- `Words`, `Bits`, `Sequences`, `Rings`, `Trigonometry`: machine words, bits and remainders,
  concatenation, the laws of a commutative ring, and those of sine and cosine.
- `Dft`, `Fft`: the radix-2 transform of `src/fft/fft_cpu.c` against the defining sum.
- `RingLog`, `Ring`, `Publish`, `Subscriber`: the capture ring against an unbounded log, the
  publisher in front of it and a reader behind it.
- `Channelizer`, `Dsp`, `Baseband`, `Plan`, `Instance`: the channelizer of `src/rtl_dsp.c` against
  whole streams, what it computes in closed form, its planner, and a planned instance.
- `Wire`, `WireFormat`, `Handshake`, `Payload`, `Client`, `Send`: the wire format, its documented
  layout, what a request is answered with, both ends of a connection, and the gathering send.
- `Spectra`, `Analyzer`, `Periodogram`: the FFT worker against whole streams, and its spectra as
  Fourier sums.
- `Outbox`, `IqSession`, `FftSession`, `Pipeline`, `Endings`: a client's session from the published
  bytes to the wire, as a state machine, and when it ends.
- `Lifecycle`, `Admission`, `StopEnds`: threads, sockets and slots of the server, whom it admits, and
  how a stop ends.
- `Pll`, `Tuner`: the R82xx PLL arithmetic and register cache.
- `Getopt`: the block exchange.

Modelling decisions:

- Code that updates objects or buffers is a class or a method on arrays, proved against a
  function of the inputs or of the history; its laws are lemmas about that function.
- The concurrent server is a state machine. A step is one critical section, one system call
  or one atomic access; a theorem about `Run` is about every interleaving. Waiting (poll,
  join, condition variables) is a guard, and a condition variable with a timeout is a step
  that may happen at any time.
- Floating point: the channelizer and the FFT worker are proved for arbitrary operations in
  the source's own order of evaluation, so chunk invariance is exact for floats. What they
  compute is then stated over the real numbers (`Baseband`, `Periodogram`), and the transform is
  proved over the complex numbers, with the twiddle table as powers of a root of unity. The phase
  increment is rounded exactly, where the source rounds a double. On the wire a float is its
  32-bit pattern.
- The network, the bus and time are nondeterministic: a receive or send moves any part of
  what it could, a wait or transfer may fail, and a deadline is an arbitrary finite number
  of rounds.
- Descriptors carry a number of their own per `accept`, because the operating system reuses a
  number only after it was closed.
- `rtlsdr_stream_read_iq` and `rtlsdr_stream_read_fft` receive into the caller's array and swap
  bytes in place; the model receives into a buffer of its own and fills the array from it.
- An I2C message is taken whole or not at all, and a reported failure does not say which.
  `r82xx_init` goes on after a failed first write; the model keeps that.
- A frame's spectra in `FftSession` are those `Analyzer` is proved to publish, and its samples in
  `IqSession` those `Dsp` is proved to emit.

Three promises turned out to need a condition, which is proved beside a counterexample:
`RingLog.ReadExact` with `RingLog.StaleCursorAfterFullTurn` (2^64 gaps),
`Pll.FieldsExact` with `Pll.NoDividerCounterexample` (a frequency without a divider), and
`Tuner.CoherentExactly` with `Tuner.LostWriteCounterexample` (a failed transfer).

## Model

| member | source | states |
|---|---|---|
| Fft.IsPow2Exactly | src/fft/fft_cpu.c:20-23 | the bit test accepts exactly the powers of two |
| Fft.Log2 | src/fft/fft_cpu.c:25-31 | the shift loop finds the exponent: 2^l <= n < 2^(l+1) |
| Fft.PlanCreate | src/fft/fft_cpu.c:62-101 | a plan exists exactly for powers of two from 2 to the limit, with a half table of twiddles, which are the powers of e^(-2*pi*i/n) by the laws of sine and cosine |
| Dft.RevInvolution | src/fft/fft_cpu.c:33-52 | reversing the bits of an index twice gives it back |
| Fft.NextReversed | src/fft/fft_cpu.c:45-50 | the carry loop takes the reversal of i to the reversal of i + 1 |
| Fft.BitReverse | src/fft/fft_cpu.c:33-52 | the swap loop leaves at every position the element of the bit-reversed index, and touches nothing outside the buffer |
| Dft.Butterfly | src/fft/fft_cpu.c:132-144 | over any commutative ring with w^(n/2) = -1, a length-2n sum is the butterfly of the two half sums, in both halves of the result |
| Fft.TwiddleIndex | src/fft/fft_cpu.c:133 | the index computed for the twiddle table is exact and below n/2 |
| Fft.Block | src/fft/fft_cpu.c:132-144 | one block of butterflies combines each pair once, in place, and leaves the rest alone |
| Fft.Pass | src/fft/fft_cpu.c:131-145 | a pass over all blocks turns transforms of length 2^k into transforms of length 2^(k+1) |
| Fft.Execute | src/fft/fft_cpu.c:113-148 | bin t of the output is the sum of input[j] * w^(jt), for every t, real part in the even word and imaginary part in the odd, in place or on disjoint buffers; partly overlapping or missing arguments are refused with memory unchanged |
| RingLog.WriteContinues | src/rtl_ring.c:39-59 | a write extends the current era, or begins one with a new generation when the sequence number is used up |
| RingLog.CursorStaysIssued | src/rtl_ring.c:61-99 | a cursor from the ring stays inside the era it was taken in and never ahead of the writer, whatever is written, marked or read |
| RingLog.ReadExact | src/rtl_ring.c:72-99 | a gap is reported exactly when the era moved on or the entry was overwritten (short of 2^64 eras), data is exactly the entry at the cursor, and an error means the entry does not fit |
| RingLog.GapSticky | src/rtl_ring.c:82-84 | a reported gap is reported again until a new cursor is taken |
| RingLog.StaleCursorAfterFullTurn | src/rtl_ring.c:82-84 | 2^64 gaps after creation a cursor of the first era is taken for a current one |
| RingLog.Conserved | src/rtl_ring.c:39-109 | over any run of writes and gaps the log gains exactly the bytes written, in order, across rollovers too |
| RingLog.EraGets | src/rtl_ring.c:39-109 | an era gets the payloads up to the first gap, all of them unless the sequence number is used up before |
| Ring.Ring.Create | src/rtl_ring.c:6-27 | a ring exists exactly for nonzero sizes whose product does not overflow, and starts as an empty log |
| Ring.Ring.WriteCopy | src/rtl_ring.c:39-59 | an accepted write is a write to the log, whatever slot it lands in; a refused one changes nothing |
| Ring.Ring.CursorNow | src/rtl_ring.c:61-70 | the cursor is the log's end |
| Ring.Ring.ReadCopy | src/rtl_ring.c:72-99 | the slot array answers as the log does, and only a data result moves the cursor or the buffer |
| Ring.Ring.MarkGap | src/rtl_ring.c:101-109 | begins a new era |
| Publish.ChunksFlatten | src/rtl_stream_server.c:445-454 | the slots a capture is cut into concatenate to the capture, each non-empty and no longer than a slot |
| Publish.ChunksEven | src/rtl_stream_server.c:445-454 | an even capture in slots of even size is cut between samples |
| Publish.Publish | src/rtl_stream_server.c:434-460 | an accepted buffer becomes its slots in the log, an odd one a gap, and a call that is stopped, empty or without a buffer logs nothing |
| Publish.PublishedWhole | src/rtl_stream_server.c:445-454 | an even buffer is logged whole: short of a rollover every reader of the era finds exactly it appended, across one its beginning, and the log as a whole gains exactly it |
| Subscriber.ConsumedReads | src/rtl_ring.c:87-95 | what a reader has taken since its cursor is the concatenation of the logged entries, entry after entry |
| Subscriber.ConsumedGrows | src/rtl_ring.c:39-59 | and stays so whatever is captured meanwhile |
| Channelizer.DecimateSnoc | src/rtl_dsp.c:120-142 | one more input adds an output exactly when the count reaches a multiple of the factor |
| Channelizer.CascadeCount | src/rtl_dsp.c:247-373 | N inputs give exactly floor(N / product of the factors) outputs |
| Channelizer.ChannelizePrefix | src/rtl_dsp.c:577-590 | more input never changes output already given |
| Channelizer.ChannelizeCount | src/rtl_dsp.c:577-590 | the exact number of components, and no more new components than new bytes |
| Channelizer.ChunkInvariance | src/rtl_dsp.c:577-590 | any even chunks emit together what one call on their concatenation emits |
| Baseband.PhaseAfter | src/rtl_dsp.c:202 | the phase after n samples is n times the increment, modulo a turn |
| Baseband.TableOscillates | src/rtl_dsp.c:23-27 | the cosine table is the real parts of the powers of e^(2*pi*i/65536) |
| Baseband.Oscillates | src/rtl_dsp.c:33-41 | the two lookups are cosine and sine of one angle: a power of that root |
| Baseband.MixRotates | src/rtl_dsp.c:209-214 | the mixer multiplies by the conjugate of the oscillator, so it moves the offset to 0 |
| Baseband.NotchAfter | src/rtl_dsp.c:203-208 | the notch output is the sample plus (alpha - 1) times the sum of alpha^(n-1-k) * x[k] over the earlier ones, I from even bytes and Q from odd |
| Baseband.MixedClosedForm | src/rtl_dsp.c:195-219 | mixed sample n is the notched sample n times the conjugate of w to the phase n * increment |
| Baseband.StageIsConvolution | src/rtl_dsp.c:120-166 | output m of a stage is the sum over all inputs j of x[j] * h[(m+1)D - 1 - j] |
| Baseband.SaturatedExactly | src/rtl_dsp.c:169-174 | the output is the value times 256 cut towards zero, or the limit |
| Baseband.RawIsNotch | src/rtl_dsp.c:402-405 | in raw mode each output component is the scaled and limited notch of its own input component |
| Dsp.NextPow2 | src/rtl_dsp.c:377-382 | the least power of two that holds the taps |
| Dsp.Stage.Push | src/rtl_dsp.c:124-126 | the masked delay line holds the last samples of everything fed |
| Dsp.Stage.FirOut | src/rtl_dsp.c:149-166 | the masked tap loop is the convolution at the newest sample, with zeros before the start |
| Dsp.Stage.Run | src/rtl_dsp.c:120-142 | a stage has produced the decimated convolution of everything it was fed |
| Dsp.SameInputSameStage | src/rtl_dsp.c:120-142 | delay line, position and counter are functions of what was fed |
| Dsp.Dsp.FrontStep | src/rtl_dsp.c:194-220 | notch, mixer and phase accumulator follow the specification sample by sample |
| Dsp.Dsp.FeedBlock | src/rtl_dsp.c:194-220 | a block of inputs up to the next output advances the first stage as single steps would |
| Dsp.Dsp.Stage1Next | src/rtl_dsp.c:223-243 | the fast first stage consumes up to its next output and leaves the state of the slow one |
| Dsp.Dsp.PushFrom | src/rtl_dsp.c:247-373 | a sample pushed into stage k keeps every later stage fed with the decimation of the one before |
| Dsp.Dsp.Process | src/rtl_dsp.c:577-590 | an accepted call emits exactly the new part of the channelized history, at most input_len components; a refused call changes nothing |
| Dsp.Dsp.Reset | src/rtl_dsp.c:592-608 | back to the empty history |
| Dsp.StateOfHistory | src/rtl_dsp.c:577-608 | two instances with the same history since creation or reset agree in every word of state, so calls may be cut anywhere and a reset instance is a new one |
| Plan.NextFactorPrime | src/rtl_dsp.c:444-453 | the factor taken is 4 or a prime |
| Plan.FactorsOf | src/rtl_dsp.c:441-458 | the factors multiply to the ratio, are 1 to 5, and only a fifth may be composite |
| Plan.FactorsPreferred | src/rtl_dsp.c:441-458 | each factor but a fifth is 4 if that divides what is left, else 3, else 2, else its least prime factor |
| Plan.Factorize | src/rtl_dsp.c:441-458 | the factoring loops produce them |
| Plan.Sort | src/rtl_dsp.c:460-471 | the sort arranges them in descending order and leaves the product the ratio, so the product check never fires |
| Plan.MakePlan | src/rtl_dsp.c:417-496 | returns the plan of the request if it is placed and within budget, and refuses exactly otherwise |
| Plan.RequestContract | docs/rtl_stream.md:44-49 | the requests that are placed are exactly those of the documented contract: ratio, bandwidth of at most four fifths of the rate or the raw exception, channel within the capture |
| Plan.PlanShape | src/rtl_dsp.c:417-496 | every plan: 1 to 5 descending factors, product the ratio, 4 or prime below five stages, channel inside the capture |
| Plan.PlanFilters | src/rtl_dsp.c:473-494 | rates divide exactly down to the output rate; each filter has the least odd number of taps from 3 on that spans its transition band, within the budget, and a cutoff in the middle between the edge of the passband and half the next rate; raw mode has one tap |
| Plan.PlanUnique | src/rtl_dsp.c:417-496 | a request has one plan |
| Plan.Replan | src/rtl_stream_server.c:305-314 | planning again with the effective bandwidth gives the same plan, so what was validated is what is created |
| Instance.PlannedRate | src/rtl_dsp.c:510-563 | a planned instance is valid and turns N samples into exactly floor(N / ratio) |
| Instance.PlannedTuning | src/rtl_dsp.c:534-538 | after n samples the oscillator has turned by n times the offset to the nearest 2^-32 of the capture rate, at most half a turn each |
| Wire.RequestRoundTrip | src/rtl_stream_proto.c:33-63 | every valid request is read back and no other is encoded |
| Wire.RequestExact | src/rtl_stream_proto.c:53-63 | of all 29-byte strings the decoder accepts exactly the encodings |
| Wire.HeaderRoundTrip | src/rtl_stream_proto.c:65-89 | a header is read back whatever follows it |
| Wire.EncodersAgree | src/rtl_stream_proto.c:65-102 | the encoders refuse exactly the frames that cannot be sent, and header plus payload is the frame |
| WireFormat.RequestLayout | docs/rtl_stream.md:129-146 | a request is 29 bytes: RT2R, three big-endian 64-bit fields and the mode, where documented |
| WireFormat.IqLayout | docs/rtl_stream.md:129-146 | an I/Q frame is RT2I, frequency, rate, number and count at bytes 4, 12, 20 and 28, then big-endian two's complement components from byte 32 |
| WireFormat.FftLayout | docs/rtl_stream.md:129-146 | the same with RT2F and 32-bit patterns |
| WireFormat.EventLayout | docs/rtl_stream.md:129-146 | the events are RT2E and the type, with the frequency at byte 8 of type 1 |
| WireFormat.ReadsExactlyFrames | stream_client/c/client.c:177-274 | on any stream of bytes a read succeeds if and only if the connection is open and the stream begins with a frame of that kind or an event |
| Handshake.Judge | src/rtl_stream_server.c:287-320 | 29 request bytes are served exactly when they encode a request for this listener that can be served, and then with that frequency, that rate and the plan for that offset |
| Wire.IqPayloadRoundTrip | src/rtl_stream_proto.c:104-118 | samples are read back, sign included |
| Wire.FftPayloadRoundTrip | src/rtl_stream_proto.c:120-134 | bit patterns are read back |
| Wire.ReadIqFrame | stream_client/c/client.c:177-244 | one frame is read exactly, one too large for the buffer is skipped exactly, and the end event closes |
| Wire.ReadFftFrame | stream_client/c/client.c:246-274 | the same for spectra |
| Wire.ReadIqTruncated | stream_client/c/client.c:177-244 | a frame cut anywhere is an error, never data |
| Wire.ReadFftTruncated | stream_client/c/client.c:246-274 | the same for spectra |
| Wire.ErrorCloses | stream_client/c/client.c:164-170 | an error or the end event closes the connection, for both readers |
| Wire.ClosedStaysClosed | stream_client/c/client.c:164-170 | and nothing is read after that |
| Wire.IqConnection | stream_client/c/client.c:177-244 | successive reads of any frames, cut anywhere, return exactly the frames in order, then errors |
| Wire.FftConnection | stream_client/c/client.c:246-274 | the same for spectra |
| Payload.EncodeIqPayload | src/rtl_stream_proto.c:104-118 | refused and empty calls write nothing; any other writes exactly the samples' bytes, and nothing past them |
| Payload.EncodeFftPayload | src/rtl_stream_proto.c:120-134 | the same for bit patterns |
| Client.Client.RecvAll | stream_client/c/client.c:23-37 | however the bytes arrive, the buffer gets all of them or the call fails |
| Client.Client.ReadHeader | stream_client/c/client.c:177-202 | piecewise reading agrees with the grammar in result, event, position and openness |
| Client.Client.Drain | stream_client/c/client.c:204-214 | skips exactly the payload, or fails and closes |
| Client.Client.ReadIq | stream_client/c/client.c:216-244 | code, header, event, samples and what is left agree with the pure reader for every fragmentation; bad arguments change nothing |
| Client.Client.ReadFft | stream_client/c/client.c:246-274 | the same for spectra |
| Send.Socket.SendV | src/rtl_stream_server.c:52-107 | success if and only if every byte of every buffer went out in order, otherwise a proper prefix of them; bad arguments send nothing; for every pattern of partial sends |
| Send.Consume | src/rtl_stream_server.c:97-104 | advancing past n sent bytes drops exactly those |
| Spectra.SpectrumPrefix | src/rtl_stream_server.c:337-389 | a spectrum depends on its own hops only |
| Spectra.HopBytes | src/rtl_stream_server.c:352-366 | sample j of hop h is the byte pair h * step + j of the history, I first, each part times window[j] |
| Spectra.TracksExactly | src/rtl_stream_server.c:345-387 | the counters are the quotients and remainders of the sample count |
| Analyzer.Analyzer.Process | src/rtl_stream_server.c:337-389 | an accepted call advances the worker to the longer history; an ill-formed one changes nothing; a failed transform stops it at that hop; a call after a failure windows and transforms that hop again, every other hop is windowed once |
| Analyzer.Analyzer.FinishHop | src/rtl_stream_server.c:362-386 | a hop is accumulated and published whole, or leaves everything but the windowed buffer untouched |
| Analyzer.Analyzer.Gap | src/rtl_stream_server.c:391-402 | starts an empty history and a new generation, withdraws the snapshot, and keeps the numbering |
| Analyzer.StateOfHistory | src/rtl_stream_server.c:337-389 | every whole spectrum of the history is published, each the mean over its hops' powers, hop h on samples [h*step, h*step+bins); the state does not depend on how the capture was cut |
| Analyzer.FailureOfHistory | src/rtl_stream_server.c:367-368 | after a failed transform everything published and accumulated is that of the history before the failed hop |
| Analyzer.NeverRetried | src/rtl_stream_server.c:426-428 | as long as no failed hop is retried, which the worker never does, every hop counts windowed once |
| Periodogram.SpectrumIsPeriodogram | src/rtl_stream_server.c:362-380 | over the reals a spectrum is, at every bin t, the mean over its hops of the squared modulus of the sum of windowed sample j times w^(jt) |
| Periodogram.PublishedIsPeriodogram | src/rtl_stream_server.c:362-380 | so is every value the worker has published |
| Outbox.StepKeeps | src/rtl_stream_server.c:151-178 | on every step: the wire is whole frames and part of one more; data, then one frequency event naming the frequency last tuned to when the epoch check failed, then one end event; no data frame begins after a retune |
| Outbox.WireIsWhole | src/rtl_stream_server.c:199-222 | the wire is the frames sent and a proper part of at most one more of the connection's kind |
| IqSession.EmittedContinues | src/rtl_stream_server.c:209-213 | what one slot yields continues the stream, is whole samples and no longer than the slot |
| IqSession.SessionKeeps | src/rtl_stream_server.c:188-222 | every step of the client, the capture, a retune, a stop or the socket keeps the frames equal to the channelized capture |
| IqSession.Subscription | src/rtl_stream_server.c:188-222 | on every interleaving the frames, numbered from 0, are a prefix of the channelizer over exactly the bytes logged since the subscription, and all of it while the worker waits; neither encoder refuses a frame; events as promised |
| IqSession.Received | stream_client/c/client.c:216-244 | the client reads exactly those frames, then errors, wherever the connection is cut |
| IqSession.ReceivedSamples | stream_client/c/client.c:216-244 | with buffers of at least a slot the samples read are a prefix of the channelized history, and contain every frame sent once there are enough reads |
| Pipeline.StreamIs | src/rtl_stream_server.c:434-455 | cutting callbacks into slots leaves the stream up to the first odd one, and the accepted bytes, as they are |
| Pipeline.PublishedToClient | src/rtl_stream_server.c:188-222 | the samples sent to a client are a prefix of the channelizer over the published bytes, counted from its subscription |
| Pipeline.PublishedToReader | stream_client/c/client.c:216-244 | the samples a client's program reads are a prefix of the channelizer over the published bytes, counted from its subscription, wherever the connection is cut |
| Pipeline.NeverRefused | src/rtl_stream_server.c:200-210 | no slot of odd length and none too long for the buffer ever ends a session |
| Pipeline.AllDelivered | src/rtl_stream_server.c:199-222 | a client that has caught up without a gap has been sent the channelizer over all published bytes |
| Pipeline.AllRead | stream_client/c/client.c:216-244 | the program of such a client reads exactly that, given enough reads |
| Pipeline.StretchesPublished | src/rtl_stream_server.c:413-432 | the capture behind every spectrum is a contiguous piece of the bytes published between two refused callbacks |
| Pipeline.WorkerNeverRefuses | src/rtl_stream_server.c:413-432 | no slot ever stops the FFT worker |
| FftSession.SessionKeeps | src/rtl_stream_server.c:229-270 | every step of worker, client, capture, gap, retune or socket keeps the client on one gap-free stretch |
| FftSession.OneStretch | src/rtl_stream_server.c:391-432 | on every interleaving a connection's spectra belong to one stretch without a gap inside, later and later ones, each the mean over hops inside it, numbered by position |
| FftSession.NumbersIncrease | src/rtl_stream_server.c:242-248 | their numbers strictly increase, by exactly the number of spectra skipped |
| FftSession.Received | stream_client/c/client.c:246-274 | the client reads exactly those frames |
| Endings.LeavesExactly | src/rtl_stream_server.c:199-222 | a worker that looks for data leaves exactly when a gap was marked or its next slot overwritten; otherwise it goes on past an empty ring, or takes the next slot into its history |
| Endings.StaysSubscribed | src/rtl_stream_server.c:164-222 | over every run without a stop, a broken socket or having been overtaken, an IQ client is served until a retune, and is left only after both events |
| Endings.StaysConnected | src/rtl_stream_server.c:164-270 | the same for an FFT client that meets no gap |
| Endings.LookTakesLatest | src/rtl_stream_server.c:239-257 | a look takes the latest spectrum unless it was taken last, and ends the session exactly after a gap |
| Endings.WorkerReadExactly | src/rtl_stream_server.c:417-425 | a turn of the FFT worker leaves an empty ring alone, takes the next slot into its stretch, or begins a new stretch exactly when overtaken, numbering on |
| Endings.WorkerStays | src/rtl_stream_server.c:413-432 | no read of published slots ever ends the FFT worker |
| Lifecycle.StepKeeps | src/rtl_stream_server.c:272-334 | slots, workers, sockets, reaper, wake-ups and generations stay consistent under every step of every thread |
| Lifecycle.StepSafe | src/rtl_stream_server.c:602-625 | no reachable step closes a socket twice or before its worker is joined, joins a thread twice, or shuts down a closed socket |
| Lifecycle.ClosedExactlyOnce | src/rtl_stream_server.c:602-625 | over a whole run each socket is closed once and each closed client's worker joined once |
| Lifecycle.CountIsExact | src/rtl_stream_server.c:682-710 | client_count is the number of slots in use, and a free slot owns no open socket |
| Admission.AdmittedExactly | src/rtl_stream_server.c:682-710 | a client gets the lowest free slot exactly when the server is not stopping, the count is below 32 and its thread can be made; otherwise its socket is closed and the slots stay as they were |
| Admission.Welcomed | src/rtl_stream_server.c:671-711 | with room, and neither stopped nor retuned, a connection on either port is accepted, checked and admitted with its port's mode |
| Admission.RunsUntilStopped | src/rtl_stream_server.c:738-763 | without a stop, a shutdown or a failure the run loop stays at its work, and the FFT thread ends only after a retune |
| Admission.ListensOnBoth | src/rtl_stream_server.c:750-762 | a turn of the loop listens on the IQ port, then on the FFT port, then polls again |
| Admission.ClosedAfterRetune | src/rtl_stream_server.c:585-600 | once the capture has been retuned no client passes the door, and the FFT thread ends when it next looks |
| Lifecycle.OneReaper | src/rtl_stream_server.c:627-639 | two reapers never overlap, and the one in shutdown never finds a client |
| Lifecycle.JoinDoesNotHang | src/rtl_stream_server.c:602-614 | the running loop joins only workers past their last access; the final one only those or workers whose socket is shut down |
| Lifecycle.StopIsSeen | src/rtl_stream_server.c:556-583 | once all callers of request_stop have returned, a loop in poll finds the control pipe readable |
| Lifecycle.FinishedClientIsSeen | src/rtl_stream_server.c:330-333 | a finished client whose worker has exited never leaves the loop asleep |
| StopEnds.StopNeverStuck | src/rtl_stream_server.c:738-775 | until a stopped run loop and any shutdown under way have ended, some thread inside the server can take a step, without a new call, signal or failure |
| StopEnds.StopIsBounded | src/rtl_stream_server.c:556-583 | after a stop, without new calls from outside, at most Rank steps are left on any schedule |
| StopEnds.StopCompletes | src/rtl_stream_server.c:714-775 | from every reachable state with the flag set, every schedule is bounded, and one that cannot be continued has ended the run loop and any shutdown that was begun |
| StopEnds.SweepReaches | src/rtl_stream_server.c:556-583 | the sweep of a stop, whoever asks for it, shuts down every client that is starting or served |
| Lifecycle.NothingOutlivesShutdown | src/rtl_stream_server.c:627-669 | when shutdown frees the server there is no run loop, worker, FFT thread or client socket, and none can appear |
| Lifecycle.GapReachesOldClients | src/rtl_stream_server.c:391-411 | once the gap sweep is over, every live FFT client of an older generation has its socket shut down |
| Lifecycle.GapEndsAll | src/rtl_stream_server.c:391-411 | a gap outdates every FFT client there is, and its sweep shuts each of them down |
| Pll.DividerUnique | src/tuner_r82xx.c:488-500 | no frequency has two power-of-two dividers |
| Pll.FindDivider | src/tuner_r82xx.c:488-500 | the search finds the divider and its exponent, or there is none |
| Pll.VcoDivNearest | src/tuner_r82xx.c:518-534 | the setting is the nearest, so the oscillator is off by at most ref/65536 |
| Pll.FieldsExact | src/tuner_r82xx.c:535-557 | the fields of an accepted setting decode to it if and only if its integer part is at least 13 and was not cut to eight bits |
| Pll.Program | src/tuner_r82xx.c:511-557 | when the setting is refused, what the registers decode to, the divider field, the modulator bit, and every bit that stays |
| Pll.FoundIsNearest | src/tuner_r82xx.c:488-534 | with a divider and a crystal of 16 to 28.8 MHz the setting has an integer part from 13 to 127 and is the nearest |
| Pll.FoundIsExact | src/tuner_r82xx.c:535-557 | such a setting is in the registers exactly unless it exceeds the limit, and a power reference of 1 refuses none |
| Pll.NoDividerCounterexample | src/tuner_r82xx.c:538-546 | 3.57 MHz, which tuning to 0 Hz asks for, finds no divider, is accepted with an integer part of 7, and the fields stand for 259 more |
| Tuner.CacheIsTransparent | src/tuner_r82xx.c:272-310 | no run of writes tells the cached chip from one always written |
| Tuner.CoherentExactly | src/tuner_r82xx.c:278-302 | from equal contents, a write of which the first bytes reach the chip leaves shadow and chip equal if and only if the rest was there already |
| Tuner.RepeatIsSkipped | src/tuner_r82xx.c:278-280 | after a write inside the shadow the same write is redundant; the chip then has it if and only if the failure did not matter |
| Tuner.LostWriteCounterexample | src/tuner_r82xx.c:278-302 | a chip with the defaults that misses a write of register 0x10: the shadow differs, and repeating the write sends nothing |
| Tuner.R82xx.ShadowStore | src/tuner_r82xx.c:240-256 | exactly the part of the write inside the shadow is stored, also when it starts below it or ends above it |
| Tuner.R82xx.ShadowEqual | src/tuner_r82xx.c:258-270 | true exactly when the whole write lies in the shadow and changes nothing |
| Tuner.R82xx.Send | src/tuner_r82xx.c:284-309 | a success means every byte is in its register; a failure leaves exactly the bytes of the messages taken |
| Tuner.R82xx.Write | src/tuner_r82xx.c:272-310 | the shadow takes the whole write; a redundant one sends nothing; from equal contents a success leaves them equal and the chip as if every byte were written, and after a failure they are equal if and only if the rest was there already |
| Tuner.R82xx.WriteMask | src/tuner_r82xx.c:328-339 | only the masked bits of the register change, in the shadow and, from equal contents, in the chip; a register outside the shadow is refused |
| Tuner.R82xx.Init | src/tuner_r82xx.c:1334-1346 | the shadow holds the defaults; shadow and chip are equal if and only if the part of the defaults that did not reach the chip was there already, so they are if the write succeeded |
| Tuner.R82xx.SetPll | src/tuner_r82xx.c:452-593 | on success the divider is the one that fits or there is none; from equal contents they stay equal, the registers decode to the setting if and only if its integer part is from 13 to the limit, which it is with a divider and a crystal in range, and nothing but registers 0x10, 0x12, 0x14 to 0x16 and 0x1a changes |
| Getopt.Scanner.Exchange | src/getopt/getopt.c:302-380 | the two blocks change places, each in order, nothing else moves, and the bounds follow the non-options |

## Left out

- StopEnds.StopCompletes: that a thread which can run eventually does, and that a worker whose socket is shut down leaves its handler, are left to the scheduler and the operating system.
- Lifecycle.NothingOutlivesShutdown: one caller of shutdown, and no outside caller after it, as the source requires; a failed rtlsdr_server_init is not modelled.
- Tuner.R82xx.Write: needs a register number of at most 0x23 and a range inside the 256 register numbers, which every caller respects; messages of 2 to 31 bytes.
- Send.Socket.SendV: the 5-second deadline is an arbitrary number of rounds; the socket options set before the loop are not modelled.
- RingLog.ReadExact: the second half holds for fewer than 2^64 gaps after the cursor was taken, and StaleCursorAfterFullTurn shows why.
- Pipeline.PublishedToReader: with buffers of at least a slot; a frame too large for a smaller one is reported and skipped, as `IqSession.Received` says.
- IqSession.Subscription: for fewer than 2^64 gaps after the subscription, which is when the ring itself can be trusted.
- FftSession.OneStretch: for fewer than 2^64 eras and stretches, for the same reason.
- SHUT_RD of a retune on starting clients, the log messages and errno values: no property above depends on them.
- receive_request: the 29 bytes are given; its deadline ends the client without an answer.
- wait_data and fft_cond: waiting is a step that may happen at any time.
- The five unrolled cascades of src/rtl_dsp.c are one loop over any number of stages.
- Filter coefficients, the window and the decay of the notch: given values.
- The Vulkan transform: a transform that succeeds or fails with its buffer unchanged.
- rtlsdr_stream_request, connecting and name resolution in the client; the other clients; the program around the server.
- USB, the demodulator, the other tuners, and the rest of the R82xx driver: register tables and calls into code that is not modelled.
- rtl_tcp, rtl_fm, rtl_power, rtl_adsb, rtl_eeprom, and option parsing beyond exchange: they would add easier members or have no clean statement.
