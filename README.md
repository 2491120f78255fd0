# spcore / SigProc in Dafny

A Dafny model of the core of the Ruby signal-processing library spcore. The
library ships two namespaces: SPCore and the older SigProc. The model covers:

- **Ring buffers.** Both generations of `CircularBuffer` are modelled as classes over an `array`.
  - The `oldest`/`newest` cursors and the explicit `fill_count` are tied to a ghost sequence of held elements by a layout invariant.
  - Each operation states its effect on that sequence.
  - `RingSpec` holds the cursor arithmetic and the abstract push semantics that both generations share.
- **Delay lines.** Both copies of `DelayLine` wrap a zero-prefilled, always-full buffer.
  - A delay in seconds is quantised to `floor(sample_rate * d)` samples.
  - The sample pushed `delay_samples` pushes ago is read back.
  - `DelayMath` holds the shared arithmetic, with sample rates and times as exact reals.
- **Limiting.** The limiter factories (one function per lambda) and the validated `Limit` object: none, lower, upper, range and nearest-value enum limiting.
- **The block network.**
  - `SignalInPort` and `SignalOutPort`: fan-out of a shared array that each input clamps in place, plus links kept on both sides.
  - `Message`, `ControlMessage` with its GET/SET dispatcher, `MessageInPort` and `MessageOutPort`.
  - `Block`, with name lookup and `step`, and `DelayBlock`.
  - The older `InputPort`/`OutputPort` pair, with continuity flags and a `Limit`.
- **Analysis.**
  - The `Extrema` scan.
  - `Features.extrema_hash` with its six accessors, and `top_n`.
  - `Interpolation.linear` and `cubic_hermite`.
  - `Envelope`, which interpolates linearly between the magnitudes of the outer extrema.

**How the Ruby is rendered**
- Ruby exceptions become `Result`/`Outcome` values. Each error names the raising condition (`Wrappers.Error`).
- Ruby symbols are strings.
- Every closure is one of a closed set that the repository actually builds:
  - limiters become functions;
  - message processors become `Processors.Processor`;
  - block algorithms become `Blocks.Algorithm`.
- A Ruby `Set` of links is an insertion-ordered sequence without repeats, which is the order `Set#each` visits.
- Methods that loop or update fields in Ruby are Dafny methods with loops and frames. Each is proved against a specification function.
- Pure computations are functions, and the properties are lemmas about those functions.

## Model

| member | source | states |
|---|---|---|
| RingSpec.SlotIsRemainder | lib/spcore/core/circular_buffer.rb:139-142 | adding a relative index to `oldest` and subtracting the size once is `(oldest + k) mod size` |
| RingSpec.SlotInjective | lib/spcore/core/circular_buffer.rb:139-142 | distinct relative positions within one lap occupy distinct slots of the backing array |
| RingSpec.LayoutAppend | lib/spcore/core/circular_buffer.rb:94-105 | writing the first free slot of a non-full buffer appends the element to the held sequence |
| RingSpec.LayoutOverride | lib/spcore/core/circular_buffer.rb:89-105 | on a full buffer, overwriting the oldest slot and advancing both cursors drops the oldest element and appends the new one |
| RingSpec.LayoutDropOldest | lib/spcore/core/circular_buffer.rb:156-159 | advancing `oldest` with wrap-around removes the first held element |
| RingSpec.LayoutDropNewest | lib/spcore/core/circular_buffer.rb:165-169 | stepping `newest` back with wrap-around removes the last held element |
| RingSpec.AfterPush | lib/spcore/core/circular_buffer.rb:86-106 | a push is refused exactly when the buffer is full and may not override; otherwise the new element is last, after all old elements, or after all but the oldest when full |
| RingSpec.PushAll | lib/spcore/core/circular_buffer.rb:109-113 | a run of pushes never holds more than the buffer size |
| RingSpec.PushAllSnoc | lib/spcore/core/circular_buffer.rb:109-113 | pushing one more element after a successful run is one more single push |
| RingSpec.PushAllFits | lib/spcore/core/circular_buffer.rb:109-113 | `push_ary` of elements that fit in the free space succeeds and appends exactly those elements, whatever the cursors were |
| RingSpec.PushAllOverride | lib/spcore/core/circular_buffer.rb:86-113 | with overriding on, pushes never fail and the buffer holds the last `size` elements of everything pushed |
| SpCoreBuffer.CircularBuffer.constructor | lib/spcore/core/circular_buffer.rb:24-35 | a new buffer has the given size and flags, holds nothing, and a size-0 buffer is both empty and full |
| SpCoreBuffer.CircularBuffer.Size | lib/spcore/core/circular_buffer.rb:38-40 | the size bounds the number of held elements |
| SpCoreBuffer.CircularBuffer.IsEmpty | lib/spcore/core/circular_buffer.rb:43-45 | empty exactly when nothing is held |
| SpCoreBuffer.CircularBuffer.IsFull | lib/spcore/core/circular_buffer.rb:48-50 | full exactly when the number held equals the size |
| SpCoreBuffer.CircularBuffer.Resize | lib/spcore/core/circular_buffer.rb:53-63 | answers true exactly when the size changes, and then holds nothing in a new backing array of that size; otherwise every field is unchanged |
| SpCoreBuffer.CircularBuffer.ToAry | lib/spcore/core/circular_buffer.rb:67-83 | returns the held elements oldest first, whether they lie in one slice or wrap around |
| SpCoreBuffer.CircularBuffer.Push | lib/spcore/core/circular_buffer.rb:86-106 | a full buffer that may not override fails with BufferFull and changes nothing; otherwise the element is appended, dropping the oldest when full; the result agrees with `RingSpec.AfterPush` and the layout invariant is kept |
| SpCoreBuffer.CircularBuffer.PushAry | lib/spcore/core/circular_buffer.rb:109-113 | the held elements and the success flag are those of pushing each element in turn; a failure is BufferFull |
| SpCoreBuffer.CircularBuffer.Newest | lib/spcore/core/circular_buffer.rb:116-132 | BufferEmpty on an empty buffer, IndexTooLarge when `k` reaches the fill count, else the k-th most recent element; nothing changes |
| SpCoreBuffer.CircularBuffer.Oldest | lib/spcore/core/circular_buffer.rb:135-145 | BufferEmpty on an empty buffer, IndexTooLarge when `k` reaches the fill count, else the k-th oldest element; nothing changes |
| SpCoreBuffer.CircularBuffer.DropOldest | lib/spcore/core/circular_buffer.rb:156-160 | the FIFO cursor step removes the oldest element and lowers the fill count by one |
| SpCoreBuffer.CircularBuffer.DropNewest | lib/spcore/core/circular_buffer.rb:165-170 | the FILO cursor step removes the newest element and lowers the fill count by one |
| SpCoreBuffer.CircularBuffer.Pop | lib/spcore/core/circular_buffer.rb:150-173 | BufferEmpty on an empty buffer with nothing changed; otherwise removes and returns the oldest (FIFO) or the newest (FILO) element, and the fill count drops by one |
| SpCoreBuffer.PushAllPrefixFails | lib/spcore/core/circular_buffer.rb:109-113 | once a push in a run is refused, the rest of the run changes nothing more and the run reports failure |
| SigProcBuffer.CircularBuffer.constructor | lib/sigproc/processing/circular_buffer.rb:7-18 | a new buffer has the given size and flags and holds nothing |
| SigProcBuffer.CircularBuffer.Size | lib/sigproc/processing/circular_buffer.rb:20-22 | the size bounds the number of held elements |
| SigProcBuffer.CircularBuffer.IsEmpty | lib/sigproc/processing/circular_buffer.rb:24-26 | empty exactly when nothing is held |
| SigProcBuffer.CircularBuffer.IsFull | lib/sigproc/processing/circular_buffer.rb:28-30 | full exactly when the number held equals the size |
| SigProcBuffer.CircularBuffer.Resize | lib/sigproc/processing/circular_buffer.rb:32-42 | answers true exactly when the size changes, and then holds nothing in a new backing array; otherwise unchanged |
| SigProcBuffer.CircularBuffer.ToAry | lib/sigproc/processing/circular_buffer.rb:44-47 | always fails with NotImplemented |
| SigProcBuffer.CircularBuffer.Push | lib/sigproc/processing/circular_buffer.rb:49-75 | answers true exactly when the buffer is not full or overrides; a refused push changes nothing; a push into free space raises the fill count by one; a full overriding push keeps it and drops the oldest |
| SigProcBuffer.CircularBuffer.Newest | lib/sigproc/processing/circular_buffer.rb:77-92 | fails with IndexTooLarge exactly when `k` reaches the fill count, which covers the empty buffer; else the k-th most recent element |
| SigProcBuffer.CircularBuffer.Oldest | lib/sigproc/processing/circular_buffer.rb:94-103 | fails with IndexTooLarge exactly when `k` reaches the fill count; else the k-th oldest element |
| SigProcBuffer.CircularBuffer.DropOldest | lib/sigproc/processing/circular_buffer.rb:112-116 | the FIFO cursor step removes the oldest element |
| SigProcBuffer.CircularBuffer.DropNewest | lib/sigproc/processing/circular_buffer.rb:121-126 | the FILO cursor step removes the newest element |
| SigProcBuffer.CircularBuffer.Pop | lib/sigproc/processing/circular_buffer.rb:108-129 | on an empty buffer, fails through `oldest`/`newest` before any cursor moves; otherwise FIFO returns the first pushed element and FILO the last, removing it |
| DelayMath.Capacity | lib/spcore/core/delay_line.rb:25 | the buffer capacity is `floor(sr * max) + 1`, at least 1 |
| DelayMath.DelaySamples | lib/spcore/core/delay_line.rb:33-34 | the delay in samples is `floor(sr * d)` |
| DelayMath.QuantisedSeconds | lib/spcore/core/delay_line.rb:35 | the stored seconds times the sample rate is the whole sample count |
| DelayMath.QuantisedWithinOnePeriod | lib/spcore/core/delay_line.rb:32-36 | the realised delay is at most the request, never negative, and short of it by less than one sample period |
| DelayMath.QuantiseIdempotent | lib/spcore/core/delay_line.rb:32-36 | setting the realised delay again changes neither the sample count nor the seconds |
| DelayMath.DelayFitsCapacity | lib/spcore/core/delay_line.rb:24-25 | any delay up to the maximum reads inside the buffer |
| DelayMath.Zeros | lib/spcore/core/delay_line.rb:26 | the prefill is `n` zeros |
| DelayMath.DelayedValue | lib/spcore/core/delay_line.rb:45-47 | reading `k` behind gives the sample pushed `k` pushes ago, or 0.0 while the prefill is still within reach |
| DelayMath.WindowReadsDelayedValue | lib/spcore/core/delay_line.rb:45-47 | the k-behind entry of the last `n` entries of the zero-prefilled history is `DelayedValue` |
| DelayMath.DelayRoundTrip | lib/spcore/core/delay_line.rb:39-47 | push `x`, then `k` more samples, and a delay of `k` reads `x` |
| SpCoreDelay.DelayLine.Capacity | lib/spcore/core/delay_line.rb:25 | the line's capacity is `DelayMath.Capacity` of its rate and maximum |
| SpCoreDelay.DelayLine.constructor | lib/spcore/core/delay_line.rb:22-28 | the buffer is full of zeros, no sample has been pushed, and the delay is quantised |
| SpCoreDelay.DelayLine.New | lib/spcore/core/delay_line.rb:22-28 | fails with DelayOverMax exactly when the delay exceeds the maximum; otherwise a valid, tuned line with nothing pushed, whose samples and seconds are the quantised delay |
| SpCoreDelay.DelayLine.SetDelaySeconds | lib/spcore/core/delay_line.rb:32-36 | stores `floor(sr * d)` samples and that count over the rate as seconds (at most `d`), with no upper bound check and no change to the buffer |
| SpCoreDelay.DelayLine.PushSample | lib/spcore/core/delay_line.rb:39-41 | never fails, and appends the sample to the history while the buffer stays full |
| SpCoreDelay.DelayLine.DelayedSample | lib/spcore/core/delay_line.rb:45-47 | the sample pushed `delay_samples` pushes ago (zero from the prefill), or IndexTooLarge when the delay reaches the capacity |
| SigProcDelay.DelayLine.Capacity | lib/sigproc/lib/delay_line.rb:16 | the line's capacity is `DelayMath.Capacity` of its rate and maximum |
| SigProcDelay.DelayLine.NewAsWritten | lib/sigproc/lib/delay_line.rb:13-19 | as written, construction never succeeds: a delay above the maximum raises DelayOverMax, and any other raises at `push_ary`, which SigProc's buffer does not define |
| SigProcDelay.DelayLine.constructor | lib/sigproc/lib/delay_line.rb:14-19 | corrected: the buffer is prefilled with zeros one push at a time in place of the missing `push_ary`, no sample has been pushed, and the delay is quantised |
| SigProcDelay.DelayLine.New | lib/sigproc/lib/delay_line.rb:14-19 | corrected: fails with DelayOverMax exactly when the delay exceeds the maximum, else a valid line whose samples and seconds are the quantised delay |
| SigProcDelay.DelayLine.SetDelaySeconds | lib/sigproc/lib/delay_line.rb:21-29 | quantises to `floor(sr * d)` samples and seconds, with no bound check and no refill |
| SigProcDelay.DelayLine.PushSample | lib/sigproc/lib/delay_line.rb:31-33 | appends the sample to the history; the buffer overrides its oldest entry |
| SigProcDelay.DelayLine.DelayedSample | lib/sigproc/lib/delay_line.rb:35-37 | `newest(delay_samples)`: the delayed sample, or IndexTooLarge when the offset reaches the fill count |
| Limiters.NoLimit | lib/sigproc/core/limiters.rb:3-7 | the identity |
| Limiters.RangeLimit | lib/sigproc/core/limiters.rb:9-19 | the result is the input, `first` or `last`; it lies in `[first, last]` when that range is ordered; an input inside the range is unchanged |
| Limiters.UpperLimit | lib/sigproc/core/limiters.rb:21-29 | the smaller of input and limit |
| Limiters.LowerLimit | lib/sigproc/core/limiters.rb:31-39 | the larger of input and limit |
| Limiters.EnumLimit | lib/sigproc/core/limiters.rb:41-49 | a listed input is returned, otherwise the current value |
| Limiters.RangeIsLowerOfUpper | lib/sigproc/core/limiters.rb:9-39 | for an ordered range, clamping is the lower limiter applied after the upper one |
| Limiters.RangeIdempotent | lib/sigproc/core/limiters.rb:9-19 | clamping twice is clamping once |
| Limiters.RangeMonotone | lib/sigproc/core/limiters.rb:9-19 | clamping preserves order |
| Limiters.EnumStaysListed | lib/sigproc/core/limiters.rb:41-49 | a current value that is listed stays listed |
| Limiters.LimiterExamples | spec/util/limiters_spec.rb:4-36 | the documented cases: identity at `±Float::MAX`, 1.5 to 2.5, 5.5 to 5.0 and 3.0 kept for the range 2.5..5.0, and the upper and lower caps at 5.0 |
| Limits.Symbol | lib/sigproc/core/limit.rb:5-10 | every limit type is named by a member of TYPES |
| Limits.ParseLimitType | lib/sigproc/core/limit.rb:10-13 | a symbol names a type exactly when it is in TYPES, and then names it back |
| Limits.SymbolRoundTrip | lib/sigproc/core/limit.rb:5-10 | parsing a type's symbol gives the type back |
| Limits.MakeLimit | lib/sigproc/core/limit.rb:12-17 | an unknown type fails with InvalidLimitType before the values are checked; values that do not fit the type (NONE 0, LOWER/UPPER 1, RANGE 2 rising, ENUM ≥1 with no repeats) fail with InvalidLimitValues; otherwise the limit holds them |
| Limits.NearestIndex | lib/sigproc/core/limit.rb:38-50 | the ENUM scan settles on a nearest value, and on the earliest of several equally near ones |
| Limits.Apply | lib/sigproc/core/limit.rb:19-66 | NONE is the identity, LOWER a max, UPPER a min, RANGE a clamp into the two values, ENUM a nearest listed value |
| Limits.LimitValue | lib/sigproc/core/limit.rb:19-66 | `limit` as written computes `Apply` |
| Limits.ScanNearest | lib/sigproc/core/limit.rb:39-50 | the ENUM loop with its strict `<` finds `NearestIndex` |
| Limits.AgreesWithLimiters | lib/sigproc/core/limit.rb:23-37 | LOWER, UPPER and RANGE agree with the matching limiter factories |
| Limits.ApplyIdempotent | lib/sigproc/core/limit.rb:19-66 | limiting a limited value changes nothing, for ENUM thanks to the no-repeats rule |
| Limits.EnumExamples | spec/core/limit_spec.rb:50-63 | the documented ENUM cases over [0.0, 2.5, 5.0], including 1.25 going to the earlier 0.0 |
| Messages.Message.constructor | lib/sigproc/network/message.rb:19-21 | the given type, subtype and data are stored |
| Messages.NewMessage | lib/sigproc/network/message.rb:11-21 | a type outside TYPES fails with InvalidMessageType; otherwise a plain message with that type and data (nil by default) |
| Messages.NewControlMessage | lib/sigproc/network/control_message.rb:14-24 | a subtype other than GET or SET fails with InvalidSubtype; otherwise the type is CONTROL whatever was asked for, and the data survives |
| Messages.MakeSetMessage | lib/sigproc/network/control_message.rb:42-44 | a CONTROL message with subtype SET and the given data |
| Messages.MakeGetMessage | lib/sigproc/network/control_message.rb:46-48 | a CONTROL message with subtype GET and nil data |
| Messages.Dispatch | lib/sigproc/network/control_message.rb:26-40 | a plain message fails with NotAControlMessage; GET calls the get handler, SET the set handler, each exactly for its subtype; any other subtype fails |
| Processors.ClampedDelay | lib/sigproc/blocks/delay_block.rb:7-9 | the SET value is clamped into `[0, max_delay_seconds]`, unchanged when already inside |
| Processors.SetDelaySec | lib/sigproc/blocks/delay_block.rb:8-10 | nil data fails with NilData and leaves the line alone; otherwise the clamped value is quantised into the line (so within the capacity) and answered |
| Processors.GetDelaySec | lib/sigproc/blocks/delay_block.rb:12-14 | the current delay is written into the message's data and answered |
| Processors.Process | lib/sigproc/network/control_message.rb:26-40 | succeeds exactly when the processor accepts the message, answering the expected reply; a refusal changes nothing; the only effects are a GET writing data and a SET retuning the line |
| Network.ClampAll | lib/sigproc/network/signal_in_port.rb:23-27 | every value goes through the range limiter |
| Network.Without | lib/sigproc/network/signal_out_port.rb:34 | deleting from an ordered set removes just that element, keeps every other element, and keeps them free of repeats |
| Network.WithoutAppend | lib/sigproc/network/signal_out_port.rb:34 | deleting distributes over concatenation, so the elements that stay keep their order |
| Network.SignalInPort.constructor | lib/sigproc/network/signal_in_port.rb:14-20 | empty queue and no link; limiting is skipped exactly for the default limits |
| Network.SignalInPort.Limited | lib/sigproc/network/signal_in_port.rb:22-27 | the batch as stored: unchanged under the default limits, else clamped |
| Network.SignalInPort.LimitedClamps | lib/sigproc/network/signal_in_port.rb:23-27 | with custom ordered limits every stored value lies within them; a value already inside is stored as given |
| Network.SignalInPort.EnqueueValues | lib/sigproc/network/signal_in_port.rb:22-30 | the caller's array is clamped in place and then appended after the existing queue |
| Network.SignalInPort.DequeueValues | lib/sigproc/network/signal_in_port.rb:32-35 | more than are queued fails with QueueUnderflow and no change; otherwise the first `count` values, the rest kept in order |
| Network.SignalInPort.DequeueAll | lib/sigproc/network/signal_in_port.rb:32-35 | with the default count the whole queue is drained |
| Network.SignalInPort.SetLink | lib/sigproc/network/signal_in_port.rb:41-44 | only a SignalOutPort is accepted as the link; anything else fails with WrongPortKind |
| Network.SignalInPort.ClearLink | lib/sigproc/network/signal_in_port.rb:37-39 | the link becomes nil |
| Network.Staged | lib/sigproc/network/signal_out_port.rb:18-22 | the batch the k-th link receives keeps its length (each link clamps the shared array before the next sees it) |
| Network.StagedWithinLimits | lib/sigproc/network/signal_out_port.rb:18-22 | a batch inside every link's limits reaches every link unchanged |
| Network.StagedDefaultLimits | lib/sigproc/network/signal_out_port.rb:18-22 | with default limits every link receives the batch as sent |
| Network.SignalOutPort.constructor | lib/sigproc/network/signal_out_port.rb:13-16 | no links |
| Network.SignalOutPort.AddLink | lib/sigproc/network/signal_out_port.rb:24-29 | a non-input fails with WrongPortKind; an input that already has a producer, this port included, fails with AlreadyLinked and nothing changes; otherwise it is appended and its back-reference set; symmetry is preserved |
| Network.SignalOutPort.RemoveLink | lib/sigproc/network/signal_out_port.rb:31-36 | a non-input fails with WrongPortKind and an unlinked one with NotLinked; otherwise it is removed and its back-reference cleared, so it can be relinked; symmetry is preserved |
| Network.SignalOutPort.SendValues | lib/sigproc/network/signal_out_port.rb:18-22 | every link in order appends the batch as `Staged` gives it, and the caller's array ends as the last link left it |
| Network.SignalOutPort.RemoveBadLinks | lib/sigproc/network/signal_out_port.rb:38-51 | as written: exactly the links with a nil back-reference are dropped |
| Network.SignalOutPort.RemoveBadLinksCorrected | lib/sigproc/network/signal_out_port.rb:38-51 | intended: exactly the links whose back-reference is this port are kept, which restores symmetry |
| Network.ForeignSignalLinkKept | lib/sigproc/network/signal_out_port.rb:42 | a link pointing at another output survives the code as written and is dropped by the corrected version |
| Network.MessageInPort.constructor | lib/sigproc/network/message_in_port.rb:15-19 | processor, type and name (default "UNNAMED") stored; no link |
| Network.MessageInPort.New | lib/sigproc/network/message_in_port.rb:7-19 | a message type outside TYPES fails with InvalidMessageType |
| Network.MessageInPort.RecvMessage | lib/sigproc/network/message_in_port.rb:21-29 | a message of the port's type goes to the processor and its answer is returned; a mismatch fails with MessageTypeMismatch without calling it, changing nothing; a SET retunes a DELAY_SEC handler's line to the clamped, quantised delay and any other message leaves it as it was |
| Network.MessageInPort.SetLink | lib/sigproc/network/message_in_port.rb:35-38 | only a MessageOutPort is accepted; anything else fails with WrongPortKind |
| Network.MessageInPort.ClearLink | lib/sigproc/network/message_in_port.rb:31-33 | the link becomes nil |
| Network.Replies | lib/sigproc/network/message_out_port.rb:18-24 | one answer per linked input |
| Network.FirstRefused | lib/sigproc/network/message_out_port.rb:18-24 | the first link that would raise, every earlier one delivering |
| Network.MessageOutPort.constructor | lib/sigproc/network/message_out_port.rb:13-16 | no links |
| Network.MessageOutPort.SendMessage | lib/sigproc/network/message_out_port.rb:18-24 | one reply per link in link order (none without links), or the first link's refusal; GET data ends as the last GET handler wrote it; only SET changes delay lines: the line of every link before the first refusal is retuned from its value on entry to the clamped, quantised delay, and every other line of the links keeps its value on entry |
| Network.MessageOutPort.AddLink | lib/sigproc/network/message_out_port.rb:26-31 | a non-input fails with WrongPortKind; an already linked input fails with AlreadyLinked; otherwise it is appended and its back-reference set |
| Network.MessageOutPort.RemoveLink | lib/sigproc/network/message_out_port.rb:33-38 | a non-input fails with WrongPortKind and an unlinked one with NotLinked; otherwise it is removed and its back-reference cleared |
| Network.MessageOutPort.RemoveBadLinks | lib/sigproc/network/message_out_port.rb:40-53 | as written: exactly the links with a nil back-reference are dropped |
| Network.MessageOutPort.RemoveBadLinksCorrected | lib/sigproc/network/message_out_port.rb:40-53 | intended: exactly the links pointing back at this port are kept |
| Network.ForeignMessageLinkKept | lib/sigproc/network/message_out_port.rb:44 | a link pointing at another output survives the code as written and is dropped by the corrected version |
| Blocks.Downcase | lib/sigproc/network/block.rb:26 | `casecmp` folds each character independently, keeping the length |
| Blocks.NameMatchExamples | lib/sigproc/network/block.rb:25-29 | case is ignored by default and respected otherwise; a prefix is no match |
| Blocks.Select | lib/sigproc/network/block.rb:24-31 | exactly the matching ports, taken from the list |
| Blocks.SelectAppend | lib/sigproc/network/block.rb:24 | selecting from joined lists is selecting from each in turn |
| Blocks.FirstMatch | lib/sigproc/network/block.rb:34-36 | the first index whose port matches, or the length when none does |
| Blocks.SelectHead | lib/sigproc/network/block.rb:34-36 | the selection is empty exactly when nothing matches, and otherwise starts with the first match |
| Blocks.DelayOutputs | lib/sigproc/blocks/delay_block.rb:22-29 | the i-th output is the input `d` samples earlier, reaching back into earlier batches and then into the zero prefill |
| Blocks.DelayedAcrossBatch | lib/sigproc/blocks/delay_block.rb:24-27 | reading `d` behind the end of a batch lands in the batch or before it |
| Blocks.NoDelayPassesThrough | lib/sigproc/blocks/delay_block.rb:22-29 | with no delay the block passes its input through |
| Blocks.DelayOutputsAppend | lib/sigproc/blocks/delay_block.rb:22-29 | splitting a stream into batches does not change what the block sends |
| Blocks.Block.constructor | lib/sigproc/network/block.rb:10-21 | the name, the algorithm and the four port lists are stored (defaults "UNNAMED", DO_NOTHING, empty lists) |
| Blocks.Block.AllPorts | lib/sigproc/network/block.rb:24 | the four lists joined |
| Blocks.Block.FindPorts | lib/sigproc/network/block.rb:23-32 | exactly the ports whose names match, case ignored by default |
| Blocks.Block.FindPortsOrder | lib/sigproc/network/block.rb:24 | matches come signal inputs first, then signal outputs, message inputs and message outputs |
| Blocks.Block.FindFirstPort | lib/sigproc/network/block.rb:34-36 | nil exactly when nothing matches, else the first match |
| Blocks.Block.Step | lib/sigproc/network/block.rb:38-40 | DO_NOTHING fails with WrongArity; the delay algorithm fails exactly when asked for more samples than are queued, leaving the input queue, the line and every output link as they were; otherwise it returns the links of OUTPUT (what sending the batch returns), the line has taken in the dequeued samples, and every link has received the delayed batch as the limits of the links before it and its own stage it; OUTPUT itself never changes |
| Blocks.DelayStep | lib/sigproc/blocks/delay_block.rb:22-29 | dequeues `count` inputs or fails with QueueUnderflow and no change; pushes them all into the line; sends the delayed batch, as each link's limits stage it, to every link of OUTPUT, and returns OUTPUT's links as sending does |
| Blocks.DelayInPlace | lib/sigproc/blocks/delay_block.rb:24-27 | each value is pushed and replaced by the delayed sample: the array ends as `DelayOutputs` |
| Blocks.NewDelayBlock | lib/sigproc/blocks/delay_block.rb:4-40 | built on the corrected delay line: DelayOverMax when the delay exceeds the maximum; otherwise a block DELAY with ports INPUT, OUTPUT and a CONTROL port DELAY_SEC served by the line's handler |
| LegacyPorts.ApplyAll | lib/sigproc/network/input_port.rb:20-22 | each value limited by the port's `Limit` |
| LegacyPorts.ApplyAllProperties | lib/sigproc/network/input_port.rb:20-22 | the default limit leaves a batch unchanged, and limiting twice is limiting once |
| LegacyPorts.ApplyAllWithinRange | lib/sigproc/network/input_port.rb:20-22 | under a RANGE limit every value lies in the range |
| LegacyPorts.InputPort.constructor | lib/sigproc/network/input_port.rb:13-17 | the limit defaults to TYPE_NONE and the queue starts empty |
| LegacyPorts.InputPort.Limited | lib/sigproc/network/input_port.rb:20-22 | limiting keeps the batch length |
| LegacyPorts.InputPort.EnqueueValues | lib/sigproc/network/input_port.rb:19-25 | the caller's array is limited in place and appended to the queue |
| LegacyPorts.InputPort.DequeueValues | lib/sigproc/network/input_port.rb:27-31 | the whole queue is returned and replaced by an empty one |
| LegacyPorts.EnqueueTwiceThenDequeue | lib/sigproc/network/input_port.rb:19-31 | two enqueued batches come back in order from one dequeue, each limited |
| LegacyPorts.Staged | lib/sigproc/network/output_port.rb:28-32 | the batch the k-th link receives keeps its length |
| LegacyPorts.StagedNoLimit | lib/sigproc/network/output_port.rb:28-32 | with default limits every link receives the batch as sent |
| LegacyPorts.OutputPort.constructor | lib/sigproc/network/output_port.rb:14-17 | no links |
| LegacyPorts.OutputPort.AddLink | lib/sigproc/network/output_port.rb:19-22 | a continuity mismatch fails with ContinuityMismatch; otherwise the input is added once (Set semantics) |
| LegacyPorts.OutputPort.RemoveLink | lib/sigproc/network/output_port.rb:24-26 | the input is deleted and the other links keep their order (`Network.Without`); one that is not linked is ignored |
| LegacyPorts.OutputPort.SendValues | lib/sigproc/network/output_port.rb:28-32 | every link in order appends the batch as the links before it limited the shared array |
| LegacyPorts.SharedInput | lib/sigproc/network/output_port.rb:28-32 | with no back-references, one input fed by two outputs queues a batch twice |
| ExtremaAnalysis.FirstMinIndex | lib/spcore/analysis/extrema.rb:11-23 | the global-minimum scan settles on an index in range |
| ExtremaAnalysis.FirstMinIndexLeast | lib/spcore/analysis/extrema.rb:20-23 | that index holds a smallest sample and no earlier sample ties it |
| ExtremaAnalysis.FirstMaxIndex | lib/spcore/analysis/extrema.rb:13-28 | the global-maximum scan settles on an index in range |
| ExtremaAnalysis.FirstMaxIndexGreatest | lib/spcore/analysis/extrema.rb:25-28 | that index holds a largest sample and no earlier sample ties it |
| ExtremaAnalysis.MapsHoldSamples | lib/spcore/analysis/extrema.rb:30-50 | every recorded value is the sample at its key; local records lie strictly inside the signal; the global minimum and maximum are recorded |
| ExtremaAnalysis.RecordsStep | lib/spcore/analysis/extrema.rb:36-50 | one step of the second pass adds at most the record at that index |
| ExtremaAnalysis.RecordsComplete | lib/spcore/analysis/extrema.rb:36-50 | the pass, which stops one short of the end, builds exactly `Minima` and `Maxima` |
| ExtremaAnalysis.MergedHoldsBoth | lib/spcore/analysis/extrema.rb:52 | `minima.merge(maxima)` has both key sets, a maximum winning a shared key, each with its sample |
| ExtremaAnalysis.ValleyBetween | lib/spcore/analysis/extrema.rb:33-50 | a fall later followed by a rise contains the end of a fall |
| ExtremaAnalysis.PeakBetween | lib/spcore/analysis/extrema.rb:33-50 | a rise later followed by a fall contains a peak |
| ExtremaAnalysis.LocalRecordsAlternate | lib/spcore/analysis/extrema.rb:33-50 | between two local maxima there is a local minimum, and the other way round |
| ExtremaAnalysis.ScanSteps | lib/spcore/analysis/extrema.rb:16-29 | the first pass computes every step and the first global minimum and maximum |
| ExtremaAnalysis.ScanExtrema | lib/spcore/analysis/extrema.rb:7-50 | fewer than two samples fail with TooFewSamples; otherwise the two maps are `Minima` and `Maxima` |
| ExtremaAnalysis.Extrema.constructor | lib/spcore/analysis/extrema.rb:52 | `extrema` is the merge of the two maps |
| ExtremaAnalysis.Extrema.New | lib/spcore/analysis/extrema.rb:7-53 | fails exactly on fewer than two samples; otherwise `minima`, `maxima` and `extrema` as specified |
| ExtremaAnalysis.StrictMinimum | lib/spcore/analysis/extrema.rb:20-23 | a sample strictly below all others is the global minimum |
| ExtremaAnalysis.StrictMaximum | lib/spcore/analysis/extrema.rb:25-28 | a sample strictly above all others is the global maximum |
| ExtremaAnalysis.ExtremaExampleFalling | spec/analysis/extrema_spec.rb:7-20 | the documented minima and maxima of the first test signal |
| ExtremaAnalysis.ExtremaExampleZigzag | spec/analysis/extrema_spec.rb:8-21 | the documented minima and maxima of the second test signal |
| ExtremaAnalysis.MergedExampleFalling | spec/analysis/extrema_spec.rb:33 | the documented `extrema` of the first test signal |
| ExtremaAnalysis.MergedExampleZigzag | spec/analysis/extrema_spec.rb:34 | the documented `extrema` of the second test signal |
| Features.ExtremaHashOf | lib/spcore/analysis/features.rb:132-183 | fails on fewer than two samples; returns the scan's maps, kept only at or below zero (minima) and at or above zero (maxima) when inner records are removed, and their merge |
| Features.Extrema | lib/spcore/analysis/features.rb:5-8 | every record, merged |
| Features.OuterExtrema | lib/spcore/analysis/features.rb:11-14 | the non-positive minima merged with the non-negative maxima |
| Features.Minima | lib/spcore/analysis/features.rb:17-20 | every minimum |
| Features.NegativeMinima | lib/spcore/analysis/features.rb:23-26 | the minima at or below zero |
| Features.Maxima | lib/spcore/analysis/features.rb:29-32 | every maximum |
| Features.PositiveMaxima | lib/spcore/analysis/features.rb:35-38 | the maxima at or above zero |
| Features.OuterRecords | lib/spcore/analysis/features.rb:177-180 | removing inner records keeps exactly the minima at or below zero and the maxima at or above zero, with their samples |
| Features.PositiveSignalOuter | lib/spcore/analysis/features.rb:177-180 | a signal above zero throughout has no outer minima and keeps all its maxima |
| Features.Insert | lib/spcore/analysis/features.rb:54 | inserting keeps a sequence ascending and adds exactly one element |
| Features.Sort | lib/spcore/analysis/features.rb:54 | `sort` gives an ascending permutation |
| Features.Smaller | lib/spcore/analysis/features.rb:47 | exactly the held values below the new one |
| Features.MinOf | lib/spcore/analysis/features.rb:49 | `min` is a member no greater than any other |
| Features.DeleteAll | lib/spcore/analysis/features.rb:49 | `Array#delete` removes every copy and nothing else: every other value keeps its multiplicity |
| Features.DeleteFirst | lib/spcore/analysis/features.rb:49 | removes exactly one copy |
| Features.KeptFromValues | lib/spcore/analysis/features.rb:41-55 | `top_n` holds only given values and at most `n` of them |
| Features.KeptSplit | lib/spcore/analysis/features.rb:41-53 | the one-copy pass neither loses nor invents a value |
| Features.KeptSize | lib/spcore/analysis/features.rb:41-53 | the one-copy pass keeps `min(n, count)` values |
| Features.KeptGreatest | lib/spcore/analysis/features.rb:41-53 | every value the one-copy pass drops is at most every value it keeps |
| Features.DeleteOnce | lib/spcore/analysis/features.rb:49 | without repeats, deleting every copy is deleting one |
| Features.DistinctValuesAgree | lib/spcore/analysis/features.rb:41-53 | on values without repeats the pass as written and the corrected pass agree |
| Features.TopN | lib/spcore/analysis/features.rb:41-55 | as written: the sorted result of the pass, ascending, drawn from the values, at most `n` long |
| Features.TopNCorrectedGreatest | lib/spcore/analysis/features.rb:41-55 | the corrected result is a sub-multiset of exactly `min(n, count)` values, none smaller than any value left out |
| Features.TopNCorrected | lib/spcore/analysis/features.rb:41-55 | intended: the `n` greatest values, with repeats, in ascending order |
| Features.TopNDistinctGreatest | lib/spcore/analysis/features.rb:41-55 | on values without repeats `top_n` as written returns the `n` greatest |
| Features.DuplicateCounterexample | lib/spcore/analysis/features.rb:49 | `[1.0, 1.0, 2.0]` with `n = 2` gives `[2.0]` as written and `[1.0, 2.0]` corrected |
| Features.GreatestOfThree | lib/spcore/analysis/features.rb:41-55 | with `n = 1` the greatest of three values is kept |
| Features.TopNExampleSingle | spec/analysis/features_spec.rb:48 | the documented case `[-11, 21, -4]`, `n = 1` gives `[21]` |
| Interpolation.Linear | lib/spcore/interpolation/interpolation.rb:22-25 | fails with OutsideUnitInterval exactly outside `[0, 1]`; gives `y0` at 0 and `y1` at 1 |
| Interpolation.LinearBetween | lib/spcore/interpolation/interpolation.rb:22-25 | the result lies between the two end values |
| Interpolation.LinearScales | lib/spcore/interpolation/interpolation.rb:22-25 | scaling both end values scales the result |
| Interpolation.LinearExamples | spec/interpolation/interpolation_spec.rb:5-13 | halfway between 2 and 4 is 3; halfway between 20 and 40 is 30 |
| Interpolation.CubicHermite | lib/spcore/interpolation/interpolation.rb:39-62 | fails exactly outside `[0, 1]`; passes through `y1` at 0 and `y2` at 1 |
| Interpolation.HermiteSlopes | lib/spcore/interpolation/interpolation.rb:49-52 | the slopes at the middle points are the central differences `(y2 - y0)/2` and `(y3 - y1)/2` |
| Interpolation.HermiteConstant | lib/spcore/interpolation/interpolation.rb:39-62 | four equal points give that value everywhere |
| Interpolation.HermiteLine | lib/spcore/interpolation/interpolation.rb:39-62 | four evenly spaced points on a line reproduce the line, agreeing with linear interpolation |
| Envelopes.KeysBelowSorted | lib/spcore/core/envelope.rb:31 | `keys.sort`: exactly the keys, strictly ascending |
| Envelopes.KeysGap | lib/spcore/core/envelope.rb:37-40 | neighbouring sorted keys are keys, ascending, with no key between them |
| Envelopes.KeysEnds | lib/spcore/core/envelope.rb:28-31 | the sorted keys start at the first sample and end at the last |
| Envelopes.Interpolated | lib/spcore/core/envelope.rb:49-51 | the interpolated value at `j` between two anchors lies between their values |
| Envelopes.SegmentValues | lib/spcore/core/envelope.rb:49-53 | between neighbouring keys the fill is the interpolation between them |
| Envelopes.FillBetween | lib/spcore/core/envelope.rb:37-54 | away from the keys the fill lies between the nearest keys on either side, with no key between; non-negative anchors give a non-negative fill |
| Envelopes.AnchorMapHolds | lib/spcore/core/envelope.rb:13-29 | the anchor map built from the extrema has exactly the anchor keys, each holding the sample's magnitude, and covers both ends |
| Envelopes.PointsAreAnchors | lib/spcore/core/envelope.rb:13-29 | a signal's points are its anchors, holding the magnitudes of their samples |
| Envelopes.EnvelopeAtAnchors | lib/spcore/core/envelope.rb:44-45 | at an anchor the envelope is the sample's magnitude: `-s[k]` at a non-positive minimum, `s[k]` at a non-negative maximum, `abs` at both ends |
| Envelopes.EnvelopeBetweenAnchors | lib/spcore/core/envelope.rb:37-54 | elsewhere it interpolates between the nearest anchors, and it is never negative |
| Envelopes.SortedKeys | lib/spcore/core/envelope.rb:31 | the scan finds the sorted keys |
| Envelopes.FillSegment | lib/spcore/core/envelope.rb:49-53 | the inner loop writes the interpolation strictly between two keys and nothing else |
| Envelopes.FillData | lib/spcore/core/envelope.rb:37-54 | the outer loop leaves every element of `data` equal to `Fill` |
| Envelopes.EnvelopeData | lib/spcore/core/envelope.rb:11-55 | fewer than two samples fail with TooFewSamples; otherwise one value per sample, each `EnvelopeAt` |
| Envelopes.Envelope.constructor | lib/spcore/core/envelope.rb:32 | the envelope holds exactly the given data |
| Envelopes.Envelope.New | lib/spcore/core/envelope.rb:11-55 | `Envelope.new`: the same failure, else `data` is the envelope |

## Left out

- Hash-based argument parsing (`hash_make`, `HashedArg`, `ArgSpec`) is not modelled. Type checks on arguments become Dafny types. Validators that the modelled code relies on become `requires` or `Result` errors.
- Floating point is modelled as exact reals. IEEE rounding, NaN and infinities are not modelled, and neither is Ruby's mixing of `Integer` and `Float`.
- The closures are a closed world.
  - A `MessageInPort` processor is either a processor that echoes the message, or the DELAY_SEC handler.
  - A block algorithm is either `DO_NOTHING` or the delay block's loop.
  - Arbitrary user lambdas are not modelled.
- Message data is a number or nil (`Option<real>`), and message types and subtypes are strings. Arbitrary Ruby objects as data are not modelled.
- The `continuous` flag of the older ports is a boolean. Ruby compares arbitrary objects with `!=`.
- Class-membership checks (`is_a?`) are modelled only where the argument can be of several port kinds (`Network.Port`). Elsewhere the Dafny type rules the wrong class out.
- The writable accessors of the duplicate `InputPort` in lib/sigproc/core/input_port.rb are not modelled. It is the same class reopened, with the same `enqueue_values`/`dequeue_values`, so it is modelled once as `LegacyPorts.InputPort`.
- The two identical copies of the limiter factories are modelled once, as `Limiters`.
- The limit type of a `Limits.Limit` is parsed once when the limit is built. Later `limit` calls match on the parsed type instead of comparing symbols, and the unreachable `raise` for an unknown type at line 85 is not modelled.
- `LegacyPorts.InputPort.constructor` takes a `CheckedLimit`: a `Limit` that `Limit.new` accepted. Invalid limits are refused by `Limits.MakeLimit` before they can reach a port.
- Ruby's `Hash#keys.sort` and `Set#each` are modelled as scans in index or insertion order. Hash insertion order is not observable in the modelled results.
- `Features.outline`, `Features.envelope` and their private helpers depend on `PolynomialResampling`, which is not part of this model. The `extrema_hash` they use is modelled.
- The 5-argument `Interpolation.linear` at line 10 is replaced by the 3-argument one at line 22, because Ruby keeps the later definition. Only the later one is modelled.
- `Envelope` inherits from `Signal`, which is not part of this model. `Envelopes.Envelope` carries only `data`.
- `Features.TopN`: of the documented `top_n` cases, only `[-11, 21, -4]` with `n = 1` is stated as a concrete lemma. The other three, which have no repeated values, are covered by `Features.TopNDistinctGreatest` rather than by concrete lemmas.
- `SpCoreBuffer.CircularBuffer.Push` and `SigProcBuffer.CircularBuffer.Push` require a non-zero size when overriding is on. Ruby would write past the end of an empty backing array and grow it. The model excludes that case instead of modelling an array that grows.
- `SpCoreBuffer.CircularBuffer.PushAry` has the same non-zero-size requirement when overriding.
- `SpCoreBuffer.CircularBuffer.Newest` takes a `nat` index. Ruby also accepts a negative `relative_index`, which reads the slot after the newest element (or `nil` past the end of the array). No caller passes one.
- `SpCoreBuffer.CircularBuffer.Oldest` takes a `nat` index. A negative `relative_index` would read the slot before the oldest element, or the last slot through Ruby's negative indexing. No caller passes one.
- `SigProcBuffer.CircularBuffer.Newest` takes a `nat` index, as its SPCore twin does, for the same reason.
- `SigProcBuffer.CircularBuffer.Oldest` takes a `nat` index, as its SPCore twin does, for the same reason.
- `Network.SignalInPort.DequeueValues` takes a `nat` count. With a negative count, Ruby's `slice!(0...count)` would remove all but the last `-count` values. No caller passes one.
- `Network.SignalOutPort.SendValues` returns nothing, although Ruby's `send_values` returns the links that `each` walked. The one caller that passes that value on, the delay algorithm, returns the links itself (`Blocks.DelayStep`). The same holds for `LegacyPorts.OutputPort.SendValues`, whose result no modelled caller uses.
- `SigProcDelay.DelayLine.constructor` prefills the buffer by repeated `push`. The SigProc buffer has no `push_ary`, so Ruby as written raises NoMethodError at delay_line.rb:17 for every line, and so does `Blocks.NewDelayBlock`, which builds one. The model uses the evidently intended prefill instead (see Findings).
- `SpCoreDelay.DelayLine.SetDelaySeconds` requires a non-negative delay. Ruby's public `delay_seconds=` also accepts a negative one and stores a negative `delay_samples`. No modelled caller passes one: the constructor's validator and `ClampedDelay` keep it non-negative.
- `SigProcDelay.DelayLine.SetDelaySeconds` requires a non-negative delay for the same reason.
- Every other file of the repository (filters, oscillators, transforms, resampling, plotting, file blocks, statistics, signals, the envelope detector) is not part of this model.

## Findings

| source | as written | input that shows it | evidently intended | confidence | as-written member | corrected member |
|---|---|---|---|---|---|---|
| lib/sigproc/network/signal_out_port.rb:42 | `bad = (link.link == nil) or (link.link != self)` assigns only the first comparison, because `or` binds more loosely than `=` | an input whose back-reference was changed to another output stays in `links` | drop every link whose back-reference is not this port | not executed | Network.SignalOutPort.RemoveBadLinks, Network.ForeignSignalLinkKept | Network.SignalOutPort.RemoveBadLinksCorrected |
| lib/sigproc/network/message_out_port.rb:44 | the same `or` precedence slip | an input whose back-reference points at another output stays in `links` | drop every link whose back-reference is not this port | not executed | Network.MessageOutPort.RemoveBadLinks, Network.ForeignMessageLinkKept | Network.MessageOutPort.RemoveBadLinksCorrected |
| lib/sigproc/lib/delay_line.rb:17 | `@buffer.push_ary` is called on a `SigProc::CircularBuffer`, whose class defines no `push_ary` | any line within its maximum, e.g. sample rate 1.0, maximum 1.0, delay 0.0; hence every `DelayBlock.new` | prefill the buffer with zeros, as the SPCore delay line does | not executed | SigProcDelay.DelayLine.NewAsWritten | SigProcDelay.DelayLine.constructor, SigProcDelay.DelayLine.New |
| lib/spcore/analysis/features.rb:49 | `top_n.delete smaller.min` removes every copy of the smallest held value | `top_n([1.0, 1.0, 2.0], 2)` gives `[2.0]` | the `n` greatest values with repeats, here `[1.0, 2.0]` | not executed | Features.TopN, Features.DuplicateCounterexample | Features.TopNCorrected, Features.TopNCorrectedGreatest |
