# Verified model of the modem core

A Dafny model of the algorithmic core of the integrated sensing and communication modem, with proofs of
what that core is for. `dafny verify dfyconfig.toml` checks all of it.

## What is modelled

* **Control-header code.** GF(2^7) tables, the BCH(127,64) encoder, syndromes, Berlekamp-Massey, root search
  and re-check, the CRC-16 header around them (`GaloisField`, `Polynomials`, `BchCode`, `BchEncoder`,
  `BchDistance`, `BerlekampMassey`, `BchTables`, `BchDecoder`, `BchCodec`, `Bytes`, `Crc16`, `HeaderCodec`,
  `HeaderCheck`). Main results: the decoder accepts 127 bits exactly if a codeword lies within 10 places, and
  returns its word; no burst of up to 16 bits in a header word passes the CRC.
* **Link-layer ARQ.** Both windows over 16-bit numbers as classes, their refinement by unbounded numbers,
  and the two parties over a link that loses, duplicates, delays and reorders packets and feedback
  (`ArqSequence`, `ArqReceiver`, `ArqRefinement`, `ArqAccounting`, `ArqSender`, `ArqProtocol`).
* **Concurrent buffers.** The seqlock, the single-producer single-consumer ring and the shared-memory sample
  ring as interleaved atomic steps (`Seqlock`, `SpscRing`, `SampleStream`), and the two rings as classes over
  arrays (`SpscBuffer`, `ShmRing`, with `RingIndex`).
* **Frame layout and uplink.** Duplex partition, resource layout, compact sensing mask, the gcd test, the
  transmitter's templates, frame filling and placement, and the timing-shift send path (`FrameConfig`,
  `Ranking`, `ResourceLayout`, `SensingMask`, `DenseSensing`, `UplinkGrid`, `UplinkTiming`).
* **Detection and filters in exact arithmetic.** CA-CFAR on an integral image, OS-CFAR with greedy
  suppression, clustering, sliding correlation, the filter cascade, scrambler and interleaver (`BoxSums`,
  `Cfar`, `OsCfar`, `Clustering`, `SecSync`, `MtiFilter`, `Scrambler`, `Interleaver`).

`Integers`, `ComplexValues`, `Outcomes`, `Sequences` and `Sorting` are shared vocabulary.

## How to read it

A method with loops has a specification function beside it and promises to compute it; what the source
promises is then proved about that function, and where a contract and a body share a function, a lemma or a
further clause says what it means without it. Classes are the source's classes. A protocol or a concurrent
object is a state machine: `Enabled`, `After`, an invariant, a lemma that every step keeps it, and results
about every run. Shifts, masks and ORs on integers are written as arithmetic where no wrap-around is involved.

Facts about the source that the proofs bring out:

* The four consistency exceptions in the BCH table construction and the symbol-count exception in the layout
  construction can never be thrown.
* A packet released by feedback need not have been received: see `ArqProtocol.FirstArrivalReleasesEarlier`.
  Released means accepted, older than the first arrival, or passed over by a forced skip.
* The transmitter's own count of data symbols matches the layout exactly if the derived uplink frame is all
  downlink, that is under FDD or with the uplink range starting at or beyond the derived frame; otherwise the
  counter runs past the tables, and `UplinkGrid.EarlyUplinkRunsPast` names a valid link for which it does.
* `absolute_consumed` and `absolute_produced` saturate one range too early for a negative origin.
* The interleaver tables are 16 bits wide, so blocks above 65536 are not invertible.

## Model

| member | source | states |
|---|---|---|
| GaloisField.ExpOrder | include/OFDMCore.hpp:725-746 | the 127th power of x is 1: the order check of the tables holds |
| GaloisField.PowersReduce | include/OFDMCore.hpp:725-743 | the seventh power of x is x + 1: the field is that of x^7 + x + 1 |
| GaloisField.LogExists | include/OFDMCore.hpp:738-743 | every nonzero 7-bit value is a power of x, with an exponent below 127: the logarithm table has no gap |
| GaloisField.ExpInjective | include/OFDMCore.hpp:738-743 | distinct exponents below 127 give distinct values |
| GaloisField.MulDistributes | include/OFDMCore.hpp:799-806 | multiplication by logarithms distributes over exclusive or |
| GaloisField.MulAssociates | include/OFDMCore.hpp:799-806 | multiplication by logarithms is associative |
| GaloisField.MulInverse | include/OFDMCore.hpp:808-822 | every nonzero element has an inverse: division is defined |
| Polynomials.RootBound | include/OFDMCore.hpp:926-943 | a polynomial of at most n coefficients with n distinct roots is zero |
| Polynomials.Vandermonde | include/OFDMCore.hpp:853-868 | power sums over distinct points that vanish for as many consecutive powers as there are points have only zero weights |
| BchCode.RootCount | include/OFDMCore.hpp:759-768 | the closure of 1..20 under doubling modulo 127 has exactly 63 members |
| BchCode.RootsGenerated | include/OFDMCore.hpp:759-768 | every root exponent is some 2^j times one of 1..20: the closure loop reaches all of them |
| BchCode.GeneratorIsBinary | include/OFDMCore.hpp:771-793 | the generator has degree 63, is monic, and its coefficients are bits, so the last consistency checks hold |
| BchCode.MonicUnique | include/OFDMCore.hpp:769-780 | there is one monic polynomial of degree 63 that vanishes on the roots, whatever the order of the factors |
| BchTables.GfMul | include/OFDMCore.hpp:799-806 | the table product is the field product, zero operands included |
| BchTables.GfDiv | include/OFDMCore.hpp:808-822 | the exception exactly for a nonzero value divided by zero; otherwise the quotient times the divisor is the dividend |
| BchTables.RootExponents | include/OFDMCore.hpp:756-768 | the set-and-double loop returns exactly the 63 root exponents, each once |
| BchTables.PowerTables | include/OFDMCore.hpp:735-746 | the loop fills `exp` with the powers of x, `log` with their exponents, and ends at 1 |
| BchTables.ProductOf | include/OFDMCore.hpp:771-780 | multiplying the linear factors in place gives the product polynomial |
| BchTables.BuildTables | include/OFDMCore.hpp:733-797 | the tables are always built: none of the four exceptions can be thrown, and the generator is the one the code is defined by |
| BchEncoder.CodewordIsCodeword | include/OFDMCore.hpp:824-851 | the encoded word vanishes on all 63 roots: all syndromes are zero |
| BchEncoder.SystematicUnique | include/OFDMCore.hpp:824-851 | a codeword is determined by its 64 message bits |
| BchEncoder.CodewordIffEncoded | include/OFDMCore.hpp:824-851 | 127 bits form a codeword exactly if they are the encoding of the word read from their last 64 places |
| BchEncoder.CodewordInjective | include/OFDMCore.hpp:824-851 | different words have different codewords |
| BchEncoder.MessageIsWord | include/OFDMCore.hpp:824-851 | the last 64 code bits are the bits of the word, most significant first |
| BchCodec.Divide | include/OFDMCore.hpp:833-841 | the in-place shift-and-subtract division leaves the remainder by the generator |
| BchCodec.BchEncodeHeader | include/OFDMCore.hpp:824-851 | the method computes the systematic codeword of the word, for every 64-bit word |
| BchCodec.OneSyndrome | include/OFDMCore.hpp:859-866 | one inner loop evaluates the received polynomial at the given power of x |
| BchCodec.BchSyndromes | include/OFDMCore.hpp:853-868 | the 20 syndromes are the values at x^1 to x^20 |
| BchDistance.SyndromesArePowerSums | include/OFDMCore.hpp:853-868 | the differences of syndromes of two words are power sums over the places where they differ |
| BchDistance.MinimumDistance | include/OFDMCore.hpp:454-460 | two distinct codewords differ in more than 20 places |
| BchDistance.DecodingUnique | include/OFDMCore.hpp:454-460 | at most one codeword lies within 10 places of any 127 bits |
| BerlekampMassey.StepKeepsInvariant | include/OFDMCore.hpp:891-920 | one round, in all three branches, keeps the locator generating the syndromes seen so far and the previous one failing where recorded |
| BerlekampMassey.RunInvariant | include/OFDMCore.hpp:886-920 | the invariant holds after every number of rounds |
| BerlekampMassey.DegreeBound | include/OFDMCore.hpp:886-920 | for syndromes of at most 10 errors the degree never exceeds the number of errors |
| BerlekampMassey.GeneratesAll | include/OFDMCore.hpp:886-920 | a recurrence of degree d that holds for as many further rounds as there are errors holds for all of them, and its reversed polynomial vanishes at the error points |
| BchCodec.DiscrepancyAt | include/OFDMCore.hpp:892-897 | the inner loop, which skips zero factors, computes the discrepancy |
| BchCodec.AddShifted | include/OFDMCore.hpp:906-910 | the in-place update adds the scaled, shifted previous locator |
| BchCodec.FindLocator | include/OFDMCore.hpp:883-920 | the loop over 20 syndromes computes the Berlekamp-Massey run |
| BchCodec.LocatorValue | include/OFDMCore.hpp:929-939 | the inner loop evaluates the locator at the test point of a position |
| BchCodec.SearchRoots | include/OFDMCore.hpp:926-941 | the search collects exactly the positions whose test point is a root, in order |
| BchDecoder.LocatorFindsErrors | include/OFDMCore.hpp:922-945 | for at most 10 errors the locator has degree equal to their number and its roots are exactly the error positions |
| BchDecoder.FlipDifferences | include/OFDMCore.hpp:946-948 | flipping the positions where two words differ turns one into the other |
| BchCodec.FlipPositions | include/OFDMCore.hpp:946-948 | the loop flips each listed bit once |
| BchDecoder.CorrectsTenErrors | include/OFDMCore.hpp:870-964 | for every 64-bit word and every pattern of at most 10 flipped bits, correction returns the codeword of that word |
| BchDecoder.CorrectIsSound | include/OFDMCore.hpp:870-964 | on any 127 bits, a correction that succeeds returns a codeword within 10 places |
| BchDecoder.CorrectIff | include/OFDMCore.hpp:870-964 | correction succeeds exactly if some codeword lies within 10 places, and then returns it |
| BchCodec.BchDecodeHeader | include/OFDMCore.hpp:870-964 | the method returns true exactly if some word has its codeword within 10 places of the input, and then returns that word |
| Crc16.Crc16Ccitt | include/OFDMCore.hpp:966-977 | the byte-and-bit loop computes the CRC of the bytes |
| Crc16.CheckValue | include/OFDMCore.hpp:966-977 | the CRC of the bytes of "123456789" is 0x29B1 |
| Crc16.CrcIsFed | include/OFDMCore.hpp:966-977 | processing whole bytes is feeding the register with their bits one by one |
| Crc16.CheckedIsClear | include/OFDMCore.hpp:669-679 | data followed by their CRC, high byte first, bring the register to zero |
| Crc16.BurstAnywhereIsSeen | include/OFDMCore.hpp:966-977 | two bit sequences that agree outside 16 consecutive places and lead to the same register are equal |
| HeaderCodec.PackHeader | include/OFDMCore.hpp:655-679 | packing fails exactly for unacceptable headers; otherwise the word is prefix and CRC |
| HeaderCodec.PackedFields | include/OFDMCore.hpp:655-679 | where each field stands in the word: 4 bits of version, 4 of flags, 16 of length, 8 of blocks, 16 of number, 16 of CRC |
| HeaderCodec.BlocksAreFewest | include/OFDMCore.hpp:543-561 | the block count matches exactly if it is the fewest blocks of 63 bytes that hold the length, or 255 for 255 and more |
| HeaderCodec.AcceptableIff | include/OFDMCore.hpp:655-664 | the headers accepted, in terms of their fields: version 1, four flag bits, the fewest blocks that hold the length |
| HeaderCodec.UnpackHeader | include/OFDMCore.hpp:681-712 | the method computes the value whose exact meaning is given by UnpackIff |
| HeaderCodec.UnpackIff | include/OFDMCore.hpp:655-712 | a word unpacks to a header exactly if the header is acceptable, fits its fields, and packs to that word |
| HeaderCheck.BurstNeverUnpacks | include/OFDMCore.hpp:681-712 | changing a word that unpacks within any 16 consecutive of its 64 bits, those of the CRC included, gives a word that does not unpack |
| HeaderCodec.WriteMiniHeader | include/OFDMCore.hpp:599-609 | refused exactly for unacceptable headers; otherwise 64 two-bit symbols carry the codeword of the packed header, the missing last bit zero |
| HeaderCodec.MiniHeaderRoundTrip | include/OFDMCore.hpp:599-653 | if at most ten signs, negative for a one, differ from the two-bit symbols written for a header, that header is received, and no other |
| HeaderCodec.DecodeMiniHeader | include/OFDMCore.hpp:645-653 | a header comes out exactly if at most ten signs, negative for a one, differ from the code bits of its packed word |
| ArqSequence.DiffExact | include/OFDMCore.hpp:5029-5031 | the 16-bit comparison gives the true difference exactly within half of the sequence space |
| ArqSequence.EraseIf | include/OFDMCore.hpp:5167-5175 | walking over the map in any order and erasing leaves exactly the keys not condemned, and counts the others |
| ArqReceiver.ArqRxWindow.constructor | include/OFDMCore.hpp:5300-5315 | window clamped to 1..32767, everything else reset |
| ArqReceiver.ArqRxWindow.AdvanceAckBase | include/OFDMCore.hpp:5467-5472 | the shifting loop moves the base past all leading ones of the bitmap at once |
| ArqReceiver.ArqRxWindow.MovedBitmap | include/OFDMCore.hpp:5439-5449 | the loop over 64 bits moves the bitmap down by the distance the base moves, keeping bits inside the span |
| ArqReceiver.ArqRxWindow.SkipToIncludeSeq | include/OFDMCore.hpp:5430-5465 | the whole new state of a forced skip |
| ArqReceiver.ArqRxWindow.ProcessReceivedPacket | include/OFDMCore.hpp:5329-5375 | new state and verdict on every branch: first packet, behind, skip, outside, repeated, accepted, buffer overflow |
| ArqReceiver.ArqRxWindow.GetDeliverable | include/OFDMCore.hpp:5382-5392 | collects the contiguous run from the expected number, in order |
| ArqReceiver.ArqRxWindow.GenerateAckPacket | include/OFDMCore.hpp:5397-5403 | the feedback is direction, base and bitmap of the current state |
| ArqReceiver.SmallestKey | include/OFDMCore.hpp:5367-5371 | the entry lost on overflow is the numerically smallest |
| ArqReceiver.OverflowLosesSmallest | include/OFDMCore.hpp:5365-5371 | a new packet for a full reorder buffer: the numerically smallest of all is lost and counted, the others stay |
| ArqReceiver.RoomKeepsAll | include/OFDMCore.hpp:5365-5371 | a packet that finds room is buffered; one already there stays as it first came |
| ArqReceiver.SkipIsCounted | include/OFDMCore.hpp:5453-5464 | a skip is counted exactly if the base moves, and its drops are the buffered packets it passes over |
| ArqRefinement.SkipRefines | include/OFDMCore.hpp:5430-5465 | a forced skip, carried out on 16-bit numbers, passes over exactly the missing unbounded numbers below the new base |
| ArqRefinement.AcceptRefines | include/OFDMCore.hpp:5356-5373 | accepting a packet on 16-bit numbers records its unbounded number; the reorder buffer never overflows when drained after each packet |
| ArqRefinement.DeliverRefines | include/OFDMCore.hpp:5382-5392 | draining hands out exactly the packets up to the window base, in increasing unbounded order |
| ArqRefinement.ReceiveRefines | include/OFDMCore.hpp:5329-5392 | one packet, for every reachable window: accepted exactly if its unbounded number is new; accepted + duplicates grows by one; the outside-window and overflow counters stay zero; what is handed out is the new part of the delivery order |
| ArqAccounting.Accounting | include/OFDMCore.hpp:5356-5392 | accepted = delivered + buffered + dropped by skips, in every reachable state of ordered mode |
| ArqAccounting.BufferIsBitmap | include/OFDMCore.hpp:5356-5403 | after draining, the next number to deliver is the window base and the buffer keys are exactly the set ACK bits |
| ArqSender.ArqTxWindow.constructor | include/OFDMCore.hpp:5115-5124 | window clamped, non-positive timeout replaced by 100 |
| ArqSender.ArqTxWindow.TryInsertEncoded | include/OFDMCore.hpp:5141-5153 | true exactly if the window had room; then the key is there, a new one with exactly this payload, these symbols, this time and no retries, one already present as it was; nothing else changes |
| ArqSender.ArqTxWindow.TryInsertPacket | include/OFDMCore.hpp:5127-5138 | the same without symbols kept for retransmission |
| ArqSender.ArqTxWindow.ProcessFeedback | include/OFDMCore.hpp:5159-5189 | nothing for the other direction; otherwise removes exactly the entries behind the base or at a set bit, keeps the others as they are, and returns the number removed |
| ArqSender.ReleasedInTwo | include/OFDMCore.hpp:5166-5188 | the cumulative walk and the bit walk release disjoint sets that make up all acknowledged entries |
| ArqSender.ArqTxWindow.GetRetransmit | include/OFDMCore.hpp:5195-5207 | distinct keys whose timeout has expired and whose retries are not used up, all such keys unless the limit is reached |
| ArqSender.ArqTxWindow.HasRetransmitPending | include/OFDMCore.hpp:5268-5278 | true exactly if the timeout of some entry has expired and its retries are not used up |
| ArqSender.ArqTxWindow.MarkTransmittedPacket | include/OFDMCore.hpp:5210-5217 | time and retry count of that entry only |
| ArqSender.ArqTxWindow.DropAbandonedPackets | include/OFDMCore.hpp:5250-5265 | removes exactly the entries whose retries are used up and whose timeout has expired, and returns their number |
| ArqProtocol.AckedIff | include/OFDMCore.hpp:5159-5189 | within half of the sequence space a feedback releases exactly the numbers below its unbounded base and those its bits list |
| ArqProtocol.StepKeepsSafe | include/OFDMCore.hpp:5127-5472 | every step of the two parties over the lossy, duplicating, reordering link keeps the safety invariant |
| ArqProtocol.RunIsSafe | include/OFDMCore.hpp:5127-5472 | so every state of every run satisfies it |
| ArqProtocol.ReleasedIsSettled | include/OFDMCore.hpp:5159-5189 | a released packet was accepted with its payload, or precedes the first arrival, or was passed over, exactly one of the three; its transmissions stay within 1 + max retries |
| ArqProtocol.EveryPacketIsAccounted | include/OFDMCore.hpp:5127-5265 | no packet is lost track of: in every run each packet sent is outstanding under its number, released, or given up on, unless its insertion met a full window or an entry of the same number |
| ArqProtocol.RetransmissionIsCounted | include/OFDMCore.hpp:5195-5217 | a retransmission adds one to the transmissions of the packet and to the retries of its entry, and only that entry stops being due |
| ArqProtocol.HandedInOrder | include/OFDMCore.hpp:5382-5392 | ordered delivery hands out payloads as sent, in sending order, none twice, in every run |
| ArqProtocol.HandedOnce | include/OFDMCore.hpp:5329-5375 | without ordering, every accepted payload is handed out as sent, in the order of acceptance, exactly once, in every run |
| ArqProtocol.RoundIsEnabled | include/OFDMCore.hpp:5159-5189 | generating feedback and delivering it at once are two steps of the protocol, both possible in every safe state within the half-space |
| ArqProtocol.FreshFeedbackIsExact | include/OFDMCore.hpp:5159-5189 | such a round leaves outstanding exactly the packets at or above the base that were not accepted |
| ArqProtocol.FirstArrivalReleasesEarlier | include/OFDMCore.hpp:5330-5335 | released does not imply received: the first arrival makes the next feedback release every earlier outstanding packet, never accepted |
| ArqProtocol.AbandonedUsedBudget | include/OFDMCore.hpp:5250-5265 | in every run a packet given up on was sent exactly 1 + max retries times and never released; without a retry limit none is given up on |
| Seqlock.WriterStepKeepsInv | include/Common.hpp:884-894 | each atomic step of a store keeps the invariant for the buffer and every reader |
| Seqlock.ReaderStepKeepsInv | include/Common.hpp:898-922 | each atomic step of a load, including retries, keeps it |
| Seqlock.LoadIsCurrent | include/Common.hpp:913-919 | a load that succeeds returns the vector current at that moment, with no store in progress |
| Seqlock.LoadsAreSnapshots | include/Common.hpp:884-922 | in every interleaving a successful load returns exactly one stored vector, and one reader never goes back in publication order |
| Seqlock.StoreCompletes | include/Common.hpp:884-894 | a vector of the right size can be stored whenever no store is going on, and is then the current one |
| Seqlock.LoadCompletes | include/Common.hpp:898-922 | once something was stored and while no store is going on, a load left alone, wherever it is, returns the current vector: at once or after beginning again |
| SpscRing.ContentsKept | include/Common.hpp:797-854 | every micro-step of either side keeps the unread slots equal to what was pushed |
| SpscRing.NeverSameSlot | include/Common.hpp:797-839 | producer and consumer never hold the same slot, however stale the index each acted on |
| SpscRing.PopsArePushesInOrder | include/Common.hpp:797-854 | in every interleaving: tail <= head <= tail + capacity, and the popped items are the pushed ones in order, minus those discarded by `clear` |
| SpscRing.PopsArePrefix | include/Common.hpp:797-850 | in every state reachable without `clear` the popped items are exactly the first ones pushed |
| SpscRing.PushCompletes | include/Common.hpp:797-823 | a producer left alone appends its value exactly if there is room |
| SpscRing.PopCompletes | include/Common.hpp:825-850 | a consumer left alone pops the oldest unread item exactly if there is one |
| SpscRing.ClearCompletes | include/Common.hpp:852-854 | `clear` left alone discards exactly the unread items |
| SpscBuffer.SPSCRingBuffer.constructor | include/Common.hpp:763-771 | empty queue of the given capacity |
| SpscBuffer.SPSCRingBuffer.ProducerSlot | include/Common.hpp:797-807 | no slot exactly if the queue is full |
| SpscBuffer.SPSCRingBuffer.TryPush | include/Common.hpp:815-823 | appends the value, or refuses exactly if full |
| SpscBuffer.SPSCRingBuffer.TryPop | include/Common.hpp:842-850 | removes and returns the oldest value, or fails exactly if empty |
| SpscBuffer.SPSCRingBuffer.Clear | include/Common.hpp:852-854 | leaves the queue empty |
| RingIndex.StoredExtends | include/ShmRing.hpp:243-248 | the two copies of a chunk, split where it wraps, extend the stretch of unread samples by the chunk |
| RingIndex.FetchedIsStretch | include/ShmRing.hpp:279-284 | the two copies out, split where they wrap, are the consecutive samples |
| ShmRing.StoreItems | include/ShmRing.hpp:243-248 | the copies in place |
| ShmRing.ShmRing.constructor | include/ShmRing.hpp:91-96 | empty ring of any capacity, origin unset |
| ShmRing.ShmRing.PushBlock | include/ShmRing.hpp:222-253 | with no reader, appends as many samples as fit, in order |
| ShmRing.ShmRing.PopBlock | include/ShmRing.hpp:258-289 | with no writer, returns and removes as many of the oldest samples as there are |
| ShmRing.ShmRing.SkipBlock | include/ShmRing.hpp:293-318 | with no writer, removes as many of the oldest samples as there are |
| ShmRing.ShmRing.SetTimelineOrigin | include/ShmRing.hpp:167-175 | first value wins and an origin once set stays; success exactly if the origin is now the wanted one |
| ShmRing.AbsoluteIsExact | include/ShmRing.hpp:177-203 | the absolute index is origin + position exactly below saturation, which a negative origin reaches early; otherwise it is the maximum, and without an origin the minimum |
| ShmRing.SaturatesEarly | include/ShmRing.hpp:177-189 | a position whose true index could be represented but is answered with the maximum |
| SampleStream.HoldsKept | include/ShmRing.hpp:222-344 | every micro-step keeps the unread samples, and those of a chunk half copied, in their slots |
| SampleStream.KthIsKth | include/ShmRing.hpp:222-344 | in every interleaving the k-th sample written is the k-th read or skipped |
| SampleStream.PushedInLine | include/ShmRing.hpp:222-253 | a push that returns put exactly the first `count` of its samples in line, fewer than asked only if it found the ring full |
| SampleStream.PoppedInLine | include/ShmRing.hpp:258-344 | a pop that returns hands out consecutive samples from where the last call stopped, fewer than asked only if it found the ring empty; `pop_upto` takes one chunk, and nothing only then |
| SampleStream.Settles | include/ShmRing.hpp:167-175 | streams only grow, and an origin once set never changes |
| SampleStream.FirstOriginWins | include/ShmRing.hpp:167-175 | the first origin named is the origin from then on |
| SampleStream.SampleIndexIsStable | include/ShmRing.hpp:167-203 | below saturation the next sample read has absolute index origin + number consumed, for good |
| SampleStream.PushCompletes | include/ShmRing.hpp:222-253 | a producer left alone writes as many of its samples as there is room for, in order, and returns |
| SampleStream.PopCompletes | include/ShmRing.hpp:258-344 | a consumer left alone gets, or skips, as many of the oldest unread samples as it asked for and there are, and returns |
| UplinkTiming.Radio.SendSamples | include/UplinkTxEngine.hpp:925-959 | a prefix of the samples goes out, the metadata with the first of them only; not all only if transmission stopped or SPIN_LIMIT calls in a row accepted nothing |
| UplinkTiming.Radio.SendZeros | include/UplinkTxEngine.hpp:961-975 | a prefix of the zeros goes out, likewise |
| UplinkTiming.Radio.SendPeriodSamples | include/UplinkTxEngine.hpp:977-994 | the part of the frame from the offset on, or zeros in its place when disabled; nothing beyond the end |
| UplinkTiming.Radio.SendPeriod | include/UplinkTxEngine.hpp:996-1067 | what goes out is a prefix of the lengthened or shortened period; complete exactly if all of it; the shift is applied exactly then |
| UplinkTiming.ShiftIsAccounted | include/UplinkTxEngine.hpp:996-1067 | over any run, complete or not: samples sent + applied shift = rounds * period + initial shift, less the samples due that did not go out and the shifts not applied in those rounds |
| UplinkTiming.ShiftIsConserved | include/UplinkTxEngine.hpp:996-1067 | over any run of complete rounds and any targets: samples sent + applied shift = rounds * period + initial shift |
| UplinkTiming.TargetIsReached | include/UplinkTxEngine.hpp:1008-1062 | under a constant target the shift meets it exactly from round 1 when delaying, ceil(error / period) when advancing |
| UplinkTiming.BoundaryFollowsShift | include/UplinkTxEngine.hpp:822-839 | the announced time of a period is its real start exactly if the applied shift has met the target |
| UplinkTiming.Transmit | include/UplinkTxEngine.hpp:741-898 | one burst of the timed loop: what each round puts on the air, lengthened or shortened for the shift applied so far and announced for its boundary, burst start only in the first; the applied shift after it; nothing else goes out; every round is complete unless transmission stopped or the radio was stuck |
| UplinkTiming.RoundOnAir | include/UplinkTxEngine.hpp:767-904 | the samples of a round stand on the air exactly where the samples of all earlier rounds end, so the sums of the conservation law are positions on the air |
| UplinkTiming.SampleOnAir | include/UplinkTxEngine.hpp:767-904 | sample by sample: behind the earlier rounds stand the samples of the queued frame, if there is one and transmission is enabled, up to the end the pending advance leaves of it, and zeros otherwise |
| FrameConfig.BuildDuplexFrameLayout | include/Common.hpp:1472-1541 | clamped start, range and guard, the kind of every symbol under FDD and TDD, whether there is any uplink, and failure exactly if uplink data falls on a reserved symbol |
| FrameConfig.DuplexPartition | include/Common.hpp:1472-1541 | guard, uplink data and downlink in terms of the configured range cut off at the end of the frame |
| FrameConfig.ReservedSymbols | include/Common.hpp:1389-1401 | the reserved symbols are the sync symbol, the one before it if enabled, and the training symbol after it if enabled |
| FrameConfig.MakeUplinkConfig | include/Common.hpp:1637-1661 | the derived frame, with only its first symbol reserved and neither mid-frame pilots nor blocks, or the failure of the link frame |
| FrameConfig.UplinkFrameIsAllDownlinkIff | include/Common.hpp:1637-1661 | the derived uplink frame is all downlink exactly under FDD or if the range starts at or beyond its end |
| Ranking.RankedBijection | include/Common.hpp:2356-2379 | rank table and member list are inverse and order preserving |
| Ranking.Enumerate | include/Common.hpp:2356-2365 | the numbering loop computes both |
| ResourceLayout.BuildLayout | include/Common.hpp:2258-2511 | a layout exactly for the acceptable configurations; its tables and masks mean what the configuration says |
| ResourceLayout.MarkBlocks | include/Common.hpp:2396-2470 | the elements set are exactly those some block of the kind covers; fails exactly if some block is bad |
| ResourceLayout.MarkMidframe | include/Common.hpp:2301-2331 | exactly the listed downlink symbols that are not reserved, and their number |
| ResourceLayout.CountSymbols | include/Common.hpp:2332-2347 | counts the downlink symbols and the reserved ones among them; reserved plus mid-frame symbols never outnumber downlink symbols, so that exception cannot be thrown |
| ResourceLayout.StripSensing | include/Common.hpp:2472-2481 | sensing pilots take precedence over payload |
| ResourceLayout.RankPayload | include/Common.hpp:2483-2495 | ranks in flat order and prefix sums per row |
| ResourceLayout.ElementsAreAGrid | include/Common.hpp:2356-2390 | every data symbol and non-pilot subcarrier meet in exactly one element |
| ResourceLayout.ElementKinds | include/Common.hpp:2368-2481 | an element lies on a downlink data symbol and no pilot, and is never both payload and sensing pilot; without configured blocks all are payload |
| ResourceLayout.ElementMeans | include/Common.hpp:2356-2481 | which symbols and subcarriers have an element, and what it is for in terms of the configured blocks: sensing wins, and no blocks means all payload |
| ResourceLayout.BlockAcceptedIff | include/Common.hpp:2398-2440 | a block is accepted exactly if it covers something, nothing outside the frame and, for sensing, nothing of a downlink training symbol |
| ResourceLayout.HeaderAcceptedIff | include/Common.hpp:2262-2292 | the head of a configuration is accepted exactly if every reserved symbol lies in the frame and the training period is a proper divisor of the FFT size |
| ResourceLayout.PayloadRanks | include/Common.hpp:2483-2495 | ranks number the payload elements in flat order, without gaps |
| ResourceLayout.PayloadRows | include/Common.hpp:2483-2495 | the ranks of a row are exactly those between its two offsets |
| UplinkGrid.FillPool | include/UplinkTxEngine.hpp:622-640 | whole packets while there is room and they fit; only a packet no frame can hold is dropped |
| UplinkGrid.FillsOnce | include/UplinkTxEngine.hpp:622-640 | queue and capacity determine how many packets go into a frame, so the pool is fixed |
| UplinkGrid.JoinedHolds | include/UplinkTxEngine.hpp:622-640 | the pool is the packets taken, end to end and symbol by symbol |
| UplinkGrid.QueueIsKept | include/UplinkTxEngine.hpp:622-640 | the packets not taken stay in order, but for one no frame can hold, which is dropped exactly if the pool still had room |
| UplinkGrid.OwnCountIsRow | include/UplinkTxEngine.hpp:272-298 | the transmitter's own count of data symbols is the row of the layout when the frame is all downlink |
| UplinkGrid.CounterFitsIff | include/UplinkTxEngine.hpp:272-299 | the counter stays within the layout exactly under FDD or if the uplink range starts at or beyond the derived frame |
| UplinkGrid.CounterRunsPast | include/UplinkTxEngine.hpp:272-299 | for every valid link whose derived layout is built but fails the condition, the layout has fewer rows than the transmitter counts |
| UplinkGrid.EarlyUplinkRunsPast | include/UplinkTxEngine.hpp:272-299 | a concrete link of 14 symbols for which this happens |
| UplinkGrid.UplinkLayoutBuildsIff | include/Common.hpp:1637-1661 | the layout of the derived frame fails exactly if a TDD range without guard starts at symbol 0 |
| UplinkGrid.BuildTemplates | include/UplinkTxEngine.hpp:267-303 | every template cell, and the payload subcarriers in rank order |
| UplinkGrid.BuildGrid | include/UplinkTxEngine.hpp:650-664 | every cell of the period: payload symbol q on the element of rank q, pilots and sync untouched |
| UplinkGrid.BuildPeriod | include/UplinkTxEngine.hpp:611-664 | under the side condition on the derived frame the layout is always built, and the grid holds the packets that fit, each payload symbol on the element of its rank, or idle content; the rest of the queue stays |
| UplinkGrid.PayloadIsWhereItsRankSays | include/UplinkTxEngine.hpp:650-664 | an element holds a payload symbol exactly if its rank is below the number sent, and then that symbol |
| UplinkGrid.OtherCellsAreKnown | include/UplinkTxEngine.hpp:267-303 | every other cell: the known sequence on the sync symbol, pilots and unused elements, filler by rank on an idle frame |
| SensingMask.BuildMask | include/Common.hpp:1936-2024 | fails exactly for bad blocks or an empty selection; otherwise the lists of the union |
| SensingMask.MaskBlockAcceptedIff | include/Common.hpp:1953-1985 | a mask block is accepted exactly if it covers something, nothing outside the frame and no training symbol |
| SensingMask.MaskListsUnion | include/Common.hpp:1992-2010 | offset and flat lists hold exactly the union of the blocks, each element once, in order |
| SensingMask.CompareRows | include/Common.hpp:2055-2071 | true exactly if all selected symbols have the same subcarriers |
| SensingMask.EvenGap | include/Common.hpp:2073-2106 | true exactly if the gaps are equal all around the frame |
| SensingMask.Analyze | include/Common.hpp:2026-2109 | regular exactly if the selection is {first + i * stride} x columns around the frame; then count * stride = num_symbols |
| DenseSensing.Gcd | include/Common.hpp:1734 | a common divisor that is an integer combination |
| DenseSensing.StrideTestIsExact | include/Common.hpp:1726-1735 | some multiple of the stride is congruent to the symbol exactly if the test says so |
| BoxSums.BuildIntegral | include/OFDMCore.hpp:4331-4340 | every entry of the integral image is the sum above and to the left |
| BoxSums.RectSum | include/OFDMCore.hpp:4342-4351 | four look-ups give the direct sum of the rectangle |
| BoxSums.OuterMinusInner | include/OFDMCore.hpp:4382-4393 | outer minus guard is the sum over exactly the training ring |
| Cfar.MapEntries | include/OFDMCore.hpp:4372-4400 | power and level of a cell stand in the map row by row |
| Cfar.TestedIff | include/OFDMCore.hpp:4372-4380 | a cell is tested exactly if its whole training window lies in the map and no exclusion names its column or row |
| Cfar.RoomIff | include/OFDMCore.hpp:4306-4315 | there is room exactly if some cell has its whole window in the map |
| Cfar.TrainingCellsAre | include/OFDMCore.hpp:4353-4355 | the divisor of the mean is the number of cells in the ring, or one for an empty ring |
| Cfar.MeanOfFlat | include/OFDMCore.hpp:4382-4393 | where the window is at one level, the noise estimate is that level |
| Cfar.Noise | include/OFDMCore.hpp:4382-4393 | the noise estimate is the mean over the training ring |
| Cfar.CaCfar | include/OFDMCore.hpp:4290-4443 | the hits are exactly the tested cells above threshold; the points are the strongest of them |
| OsCfar.TrainingOffsets | include/OFDMCore.hpp:4508-4515 | computes the list of ring offsets, row by row |
| OsCfar.OffsetsAreTheRing | include/OFDMCore.hpp:4508-4515 | the list holds exactly the offsets within the outer box and outside the guard box |
| OsCfar.OffsetsOnce | include/OFDMCore.hpp:4508-4515 | each of them once |
| OsCfar.RankIsUnique | include/OFDMCore.hpp:4619-4624 | the order statistic does not depend on how the selection is done |
| OsCfar.RankIsNearest | include/OFDMCore.hpp:4521-4523 | the index is the one nearest to the percentage, the upper one on a tie, and stays at the ends beyond 0 and 100 |
| OsCfar.NthElement | include/OFDMCore.hpp:4619-4624 | selects the value at that place of the ascending order |
| OsCfar.TestCell | include/OFDMCore.hpp:4599-4646 | true exactly if the cell passes level, noise and threshold tests |
| OsCfar.GreedyPass | include/OFDMCore.hpp:4591-4666 | hits are passing candidates, apart from each other, and explain every passing candidate |
| OsCfar.OsCfar | include/OFDMCore.hpp:4461-4677 | the whole detector, down to the shown points |
| OsCfar.HitsAreSeparated | include/OFDMCore.hpp:4654-4665 | no two hits lie in each other's suppression box |
| OsCfar.HitsAreMaximal | include/OFDMCore.hpp:4591-4666 | every examined passing candidate lies in the box of a hit at least as strong |
| OsCfar.ExaminedCount | include/OFDMCore.hpp:4554-4567 | all tested cells are examined, up to the larger of 1024 and 32 per point to show |
| OsCfar.LeftOutMeansFull | include/OFDMCore.hpp:4554-4567 | if a tested cell is left out, that many were examined, none of them weaker |
| OsCfar.SmallMapsAreCovered | include/OFDMCore.hpp:4461-4677 | with no more tested cells than that, every tested cell that passes lies in the box of a hit at least as strong |
| OsCfar.ShownAreStrongest | include/OFDMCore.hpp:4668-4677 | no hit left out is stronger than one shown |
| Clustering.MarkNeighbours | include/OFDMCore.hpp:4736-4745 | the inner loop marks and queues every unmarked neighbour |
| Clustering.Flood | include/OFDMCore.hpp:4725-4746 | the flood terminates and collects exactly the connected component of its seed |
| Clustering.SameClusterIff | include/OFDMCore.hpp:4720-4746 | two detections share a cluster exactly if a chain of near detections joins them |
| Clustering.StrengthAt | include/OFDMCore.hpp:4711-4718 | the level of a detection is the map entry of its row and column, or minus infinity outside the map |
| Clustering.Summarize | include/OFDMCore.hpp:4752-4783 | peak is the first strongest member, size their number, centroid the weighted mean or the peak |
| Clustering.CentroidBetween | include/OFDMCore.hpp:4764-4778 | the centroid of a cluster lies within every box that holds its members |
| Clustering.ClusterTargets | include/OFDMCore.hpp:4695-4793 | clusters are the connected components, each detection in one, sizes adding up, strongest first |
| SecSync.ProductsSlide | include/OFDMCore.hpp:2011-2022 | sliding the correlation sum equals the direct sum one sample on |
| SecSync.DetectSecSync | include/OFDMCore.hpp:1968-2034 | the returned start is the earliest maximum of the metric computed from direct sums, with the direct correlation there |
| SecSync.RotatedMetric | include/OFDMCore.hpp:1968-2034 | a symbol followed by itself times z, with enough energy, has metric 1 / |z|^2, and the correlation there is z times its energy |
| SecSync.RepeatedIsOne | include/OFDMCore.hpp:1968-2034 | a symbol repeated exactly, with enough energy, has metric one |
| MtiFilter.StageMajorIsSymbolMajor | include/OFDMCore.hpp:3569-3605 | stage by stage and symbol by symbol give the same output and the same state |
| MtiFilter.DifferenceEquation | include/OFDMCore.hpp:3586-3601 | from rest each output of a section is b0 x[n] + b1 x[n-1] + b2 x[n-2] - a1 y[n-1] - a2 y[n-2] |
| MtiFilter.SectionsBlockConstants | include/OFDMCore.hpp:3536-3545 | the numerator coefficients of every section add up to zero, or to a rounding error in two of them |
| MtiFilter.SplitRunIsSame | include/OFDMCore.hpp:3535-3617 | splitting a run into consecutive calls changes neither output nor state |
| MtiFilter.MTIFilter.constructor | include/OFDMCore.hpp:3510-3521 | all state zero |
| MtiFilter.MTIFilter.FilterSymbol | include/OFDMCore.hpp:3585-3603 | one section on one symbol |
| MtiFilter.MTIFilter.FilterStage | include/OFDMCore.hpp:3569-3605 | one section over all symbols, column by column |
| MtiFilter.MTIFilter.Apply | include/OFDMCore.hpp:3535-3617 | each processed column goes through the cascade; all other columns and state stay |
| Scrambler.BuildKeystream | include/OFDMCore.hpp:1019-1027 | the shift register loop computes the sequence |
| Scrambler.KeystreamRecurs | include/OFDMCore.hpp:1019-1027 | from the ninth bit on, each bit is the sum of those 2, 3, 4 and 8 places before it |
| Scrambler.NoLongZeros | include/OFDMCore.hpp:1012-1016 | exactly the nonzero seeds give a one among any eight consecutive bits: zero disables scrambling |
| Scrambler.NoLongOnes | include/OFDMCore.hpp:1012-1016 | whatever the seed, there is a zero among any nine consecutive bits |
| Scrambler.ScrambleInPlace | include/OFDMCore.hpp:1031-1038 | flips exactly the bits where the keystream is one, as far as it reaches |
| Interleaver.BuildMaps | include/OFDMCore.hpp:1073-1092 | both tables for every acceptable shape, failure exactly otherwise, 16-bit truncation included |
| Interleaver.ApplyInPlace | include/OFDMCore.hpp:1113-1139 | applies the map to every block in place; refuses exactly if the length is no multiple of the block |
| Interleaver.MapsAreInverse | include/OFDMCore.hpp:1084-1091 | the tables are permutations inverse to each other, for blocks up to 65536 |
| Interleaver.InterleaveRoundTrip | include/OFDMCore.hpp:1096-1139 | each map undoes the other on any number of blocks |
| Interleaver.ChainRoundTrip | include/UplinkTxEngine.hpp:574-576 | scramble, interleave, deinterleave, descramble is the identity |
| Interleaver.LargeBlockLoses | include/OFDMCore.hpp:1088-1089 | beyond 65536 the truncated tables map two different blocks to the same |
| Interleaver.BurstIsSpread | include/OFDMCore.hpp:1084-1091 | two bits less than `rows` apart in a block come from places at least cols - 1 apart |

## Left out

- Half-space hypothesis: ArqProtocol.Enabled lets a packet or a feedback arrive only within half the sequence space of the window it meets, as the comment at include/OFDMCore.hpp:5022-5027 demands of all window logic.
- Draining after each packet: the refinement covers ordered delivery drained after every received packet, as src/UE.cpp:6015-6025 does; without draining, `Buffered` and its numerically smallest victim are modelled, but nothing is proved about delivery.
- Retransmission is one step: between collecting the due keys and sending, the source may lose an entry to feedback and then skips it; the model takes copy, send and mark together.
- ArqReceiver.ArqRxWindow.GenerateAckPacket: the byte-level packing of feedback and the interval between feedbacks are not part of this model.
- Weak memory: Seqlock, SpscRing and SampleStream interleave sequentially consistent steps; the acquire and release annotations are not modelled, and counters and positions do not wrap.
- Timeouts and back-off in the sample ring are choices: a blocked call may stop whenever it finds the ring full or empty.
- ShmRing.ShmRing.PushBlock: the class has no second party, so a full ring stops the call; SampleStream has both.
- ShmRing.ShmRing.PopBlock: likewise, an empty ring stops the call.
- ShmRing.ShmRing.SkipBlock: likewise, an empty ring stops the call.
- FrameConfig.BuildDuplexFrameLayout: sizes do not wrap; the source adds `size_t` values, so an uplink range whose end exceeds 2^64 - 1 is not clamped there.
- FrameConfig.MakeUplinkConfig: the choice of the ZC root and the sensing symbol number are not part of this model.
- ResourceLayout.MarkBlocks: sizes do not wrap; a block whose end exceeds 2^64 - 1 passes the range test of the source and fails here.
- SensingMask.BuildMask: sizes do not wrap, as in ResourceLayout.MarkBlocks, and the mask hash is left out.
- UplinkTiming.Transmit: one timed burst with times in samples; the untimed mode, restarts, tick rounding, floating-point seconds and the recovery log are not part of this model.
- UplinkGrid.BuildPeriod: idle content is a given pool, cells are symbolic, and the inverse FFT, scaling and cyclic prefix are not part of this model.
- ResourceLayout.BuildLayout: the mid-frame rank table, warnings and the counters that only feed log lines are left out.
- SensingMask.Analyze: the FFT-size restrictions that follow the regularity test are left out.
- Exact arithmetic: detectors, correlation, clustering and the filter work on reals, so NaN, infinity and rounding branches have no counterpart; dB-to-power conversion is a given map, and the angle of the best correlation is left to the caller.
- Cfar.CaCfar: the noise and threshold statistics are left out.
- OsCfar.OsCfar: the noise and threshold statistics are left out.
- SecSync.DetectSecSync: the frequency offset is left to the caller, who gets the correlation it is the angle of; `Found` stands for the valid flag.
- Clustering.ClusterTargets: points outside the map have level minus infinity, as in the source; NaN levels do not occur.
- MtiFilter.MTIFilter.Apply: the planar scratch copies are not modelled; rows and columns are a two-dimensional array.
- Field elements are 7-bit values, header words natural numbers below 2^64; the BCH tables are built once and passed as a parameter.
- Library sorting is taken by contract: some permutation, in descending order.
- Marker correlation, LDPC, QAM, FFT-based processing, oscillator and gain control, sockets, configuration parsing and logging are not part of this model.
