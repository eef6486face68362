# llshmframe: a Dafny model of its protocols

llshmframe moves video frames and commands between one producer and several consumers through a shared
memory segment, without a mutex. What it promises rests on small concurrent protocols. This project
models those protocols as step relations, one shared access per step, and proves what holds in every
reachable state of every interleaving; the calls that change an object's fields are classes whose methods
are proved against the same specification functions.

| module | subject |
|---|---|
| `Words` | 64-bit arithmetic, masks and powers of two, multiplication and slot rotation by recursion |
| `Layout` | configuration check, offset arithmetic, regions, header publication and validation |
| `FrameModel`, `FrameInvariant`, `FrameReaders` | the frame path: one publisher, any number of readers, its inductive invariant |
| `FrameTheorems`, `FrameWitness` | what the frame path guarantees, and runs that show the guarantees are tight |
| `PublisherClass`, `RateGate` | `begin_write`, `cancel_write`, `commit`, `publish`, and both rate gates |
| `CommandRing`, `RingTheorems`, `RingWitness`, `RingClass` | the single-producer, single-consumer ring and its refinement to a FIFO queue |
| `Ownership`, `CommandChannel` | the claim on the command channel, and that claim composed with the two rings |
| `Lifecycle`, `Reconnect`, `Recovery` | create, reclaim, shutdown, crash; attaching and re-attaching; a producer restart as a whole |
| `Addresses` | every offset touched by readers, pusher and popper stays in its region |
| `Canvas`, `SlotPool` | the multiview producer's on-demand pool of views |

`dafny verify dfyconfig.toml` checks everything.

## How to read the statements

A system is an initial state, `Enabled` and `Apply` for one event, `Runs` for a list of events, and
`Reachable` for the states some run ends in. Fields called history record what happened and are never read
by the protocol. In the frame path the unit of history is the write *attempt*: attempt b is the b-th
successful `begin_write`, and `hist[b-1]` is what its slot held when the counter became even again, whether
by `commit` or by `cancel_write`.

The assumptions the statements rest on:

- Interleaving is sequentially consistent; the fences of the source are taken to provide that.
- The application writes a payload only between `begin_write` and `commit`, and inside the frame it asked for.
- Slot counters and frame ids are unbounded. Ring counters are 64-bit and wrap.
- Sizes that `begin_write` grants have width * height * bytes-per-pixel below 2^64; `FrameTheorems.GeometryCheckExact`
  says exactly what its check does without that.
- "Clock minus heartbeat" is one step; clock readings are positive, monotone and below 2^64.
- Claim tokens are distinct and nonzero. Successive sessions of a name have distinct ids.
- `create` is one step, and unlinking follows POSIX: it drops the name and leaves mappings alone.

## Where the code and its comments part

- The comment in `cancel_write` (src/llpublisher.cpp:206-208) says no subscriber will visit a cancelled slot. A
  reader that stalled between loading `latest` and sampling the counter can, and its read is then accepted:
  `FrameWitness.CancelledWriteCanBeRead`. Reads are never torn exactly when the application never cancels:
  `FrameWitness.NoTearingIffNoCancels`.
- Accepted ids can step back by one without any cancel (`FrameWitness.IdsCanStepBack`), because a slot turns even
  before `latest` names it, and the test at src/llsubscriber.cpp:258 only refuses an equal id. They never step back
  further, and do so exactly when the loaded id is behind the last accepted one and its slot has not been reused:
  `FrameTheorems.AcceptedIdOrder`, `FrameTheorems.StrictOrderExactly`.
- The claim and its first heartbeat are two stores (src/llsubscriber.cpp:145-150). A newcomer that judges the claim
  between them sees a stale one and may steal it: `Ownership.TwoOwnersWithoutSerialisedOpen`. The model keeps the two
  stores. Exclusion holds exactly when no claim is judged before its claimant's first heartbeat, as when subscribers
  are opened one at a time, and live owners beat in time: `Ownership.ExclusionIffSerialisedAndTimely`.
- A publisher whose name was reclaimed still unlinks that name when it is destroyed (src/llpublisher.cpp:59-67),
  leaving its successor live with its name bound to nothing, whatever the configuration:
  `Lifecycle.DisplacedDestructorUnlinksSuccessor`. Names are kept exactly when
  heartbeats are timely: `Lifecycle.NamesKeptIffTimely`.
- The size check of `begin_write` multiplies in 64 bits (src/llpublisher.cpp:179-181), so a product that wraps can
  pass: `FrameTheorems.WrappedProductIsAccepted`.
- The stale window of the command owner is 8 s in the code (src/llinternal.h:70), where
  examples/multiview_producer.cpp:86-91 speaks of about 2 s. The model uses the code's value.
- A push with a null pointer and a positive size succeeds and leaves the payload bytes unspecified
  (src/llinternal.h:319): the pop hands out what the cell last held, `RingWitness.NullPushDeliversOldBytes`.

## Model

| member | source | states |
|---|---|---|
| `FrameTheorems.NoTornFramesWithoutCancels` | src/llsubscriber.cpp:254-316 | In every interleaving of a publisher that never cancels with any number of readers, the bytes and all six fields of each `Ok` are those of one committed frame, however often the reader is lapped. |
| `FrameTheorems.ReadsAreOneAttempt` | src/llsubscriber.cpp:254-316 | With cancels too, each `Ok` is exactly one finished attempt in the announced slot: the announced committed frame itself, with the loaded id, or one at least n attempts newer. Only a lapped reader can accept an uncommitted attempt. `BufferTooSmall` reports one finished attempt. |
| `FrameTheorems.AcceptedIdOrder` | src/llsubscriber.cpp:256-313 | Without cancels an accepted id is at least the loaded one, differs from the previous one, is at most one behind it, and is behind if and only if the loaded id was behind and the slot had not been reused. |
| `FrameTheorems.LatestWins` | src/llsubscriber.cpp:254-316 | Cancels or not, an `Ok` is the frame announced when the call began or a later attempt, even after retries; without cancels its id is at least that frame's. |
| `FrameTheorems.StrictOrderExactly` | src/llsubscriber.cpp:256-313 | Ids strictly increase if and only if no load looks back, and if and only if received + dropped = last - first + 1 (each step back adds two to that sum); enough is that every load is above the last accepted id, or that every accepted id is the loaded one. |
| `FrameTheorems.RetryMeansLapped` | src/llsubscriber.cpp:273-304 | A pass of the read loop is abandoned only if n writes have begun since the frame it went for; without cancels `latest` advanced by at least n - 1. |
| `FrameTheorems.ContendedMeansFourLaps` | src/llsubscriber.cpp:254-318 | Without cancels `Contended` implies at least 4 * (n - 1) frames were announced during that one call. |
| `FrameTheorems.OtherContendedExitsUnreachable` | src/llsubscriber.cpp:268-290 | The slot-index exit and the impossible-byte-count exit are never taken in any reachable state. |
| `FrameTheorems.EveryAnswerHasItsReason` | src/llsubscriber.cpp:254-318 | In every reachable state: `NoNewFrame` and `Disconnected` mean that the announced frame was the one accepted last, or that there was none (so without cancels nothing announced at the call is withheld); `Disconnected` only after a shutdown, and never `NoNewFrame` for a call begun after one; `BufferTooSmall` only for a whole frame, not older than the announced one, that exceeds the buffer; `Contended` only for a lapped reader. |
| `FrameTheorems.NewsIsDelivered` | src/llsubscriber.cpp:254-318 | A call with room for a frame, during which fewer than n writes began, delivers a frame not older than the announced one or had nothing new to deliver. |
| `FrameTheorems.LatestSlotProtected` | src/llpublisher.cpp:183-228 | Cancels allowed: the k-th write begun since the last commit targets (L + k) mod n, so for k < n the slot named by `latest` is even and shows exactly the announced frame. |
| `FrameTheorems.PublishedImageArrives` | src/llpublisher.cpp:234-259 | Whoever accepts a frame made by `publish` gets the source image byte for byte, with stride = width * bpp and payload_bytes = height * stride. |
| `FrameTheorems.GeometryCheckExact` | src/llpublisher.cpp:179-181 | Below 2^64 the size check is exact; in general it admits only what fits iff the product is below 2^64 or wraps to more than a slot holds. |
| `FrameTheorems.WrappedProductIsAccepted` | src/llpublisher.cpp:179-181 | At four bytes per pixel a 2^31 by 2^31 request passes the check. |
| `FrameTheorems.ReadersNeverWait` | src/llsubscriber.cpp:254-318 | A reader inside a call can always step, every step uses up a fixed budget, and no publisher step adds to it, wherever the publisher stopped. |
| `FrameWitness.CancelledWriteCanBeRead` | src/llpublisher.cpp:201-213 | For every geometry, some run with cancels ends with a reader that accepted bytes no committed frame ever had. |
| `FrameWitness.NoTearingIffNoCancels` | src/llpublisher.cpp:201-213 | Every reachable state is free of torn frames if and only if the publisher never cancels. |
| `FrameWitness.ProtectionIsSharp` | src/llpublisher.cpp:183-190 | With cancels some run begins exactly n writes after a commit and finds the announced slot odd. |
| `FrameWitness.IdsCanStepBack` | src/llsubscriber.cpp:308-313 | Without cancels some run accepts id n + 1 and then id n: the one-step bound is reached. |
| `FrameInvariant.WriterKeeps` | src/llpublisher.cpp:161-232 | Every shared store of `begin_write`, rendering, copying, `commit`, `cancel_write` and shutdown preserves the publisher's invariant. |
| `FrameReaders.StepKeeps` | src/llsubscriber.cpp:235-319 | Every step of every participant preserves the joint invariant of publisher and readers, which says of each result, NoNewFrame and Disconnected included, what must hold for it. |
| `PublisherClass.CopyImage` | src/llpublisher.cpp:241-255 | Block copy and row loop both leave byte x of source row y at y * dst_stride + x, and nothing past the image changes. |
| `PublisherClass.BeginProgram` | src/llpublisher.cpp:183-198 | `begin_write` past its checks is exactly six steps of the frame-path model. |
| `PublisherClass.CommitProgram` | src/llpublisher.cpp:215-229 | `commit` is exactly five steps of the frame-path model. |
| `PublisherClass.CopyIsProgram` | src/llpublisher.cpp:241-255 | Whatever copies the image and leaves the rest of the payload alone, block or row loop, ends in the state the model's byte steps reach. |
| `PublisherClass.Publisher.BeginWrite` | src/llpublisher.cpp:161-199 | For all 32-bit arguments grants exactly when idle, non-empty, a full interval after the last publish and of a 64-bit byte count that fits the slot; then opens the next slot, odd and stamped with the geometry asked for, otherwise only the throttle count can change. The invariant is kept unless a wrapped size was granted. |
| `PublisherClass.Publisher.Render` | src/llpublisher.cpp:198-199 | Bytes rendered into the granted slot before the commit land where they were put, change nothing else, and keep the invariant. |
| `PublisherClass.Publisher.CancelWrite` | src/llpublisher.cpp:201-213 | Ends the attempt without announcing it or using an id, leaves its slot even and keeps the invariant; no-op when nothing is pending. |
| `PublisherClass.Publisher.Commit` | src/llpublisher.cpp:215-232 | The new record has the next id, the given timestamp (now, for 0) and the bytes the slot showed; its slot, even again, shows it and `latest` names it. Keeps the invariant and the spacing of commits; no-op when nothing is pending. |
| `PublisherClass.Publisher.Publish` | src/llpublisher.cpp:234-259 | Succeeds exactly when the source is not null and a write is granted; the new announced record then holds the source image, copied by either path, otherwise nothing changes. |
| `PublisherClass.PublishedBytes` | src/llpublisher.cpp:241-255 | The record publish leaves holds at y * width * bpp + x the source byte at y * pitch + x, for every row and byte, where pitch is the caller's stride, or width * bpp if that is 0. |
| `PublisherClass.ReaderGetsSource` | src/llpublisher.cpp:234-259 | Whoever accepts that record, in any interleaving, holds the caller's image with its width, height and packed stride, each row taken from where the caller's stride puts it. |
| `PublisherClass.Publisher.CommitsInWindow` | src/llpublisher.cpp:167-177 | For a nonzero interval I any window of length T holds at most floor(T / I) + 1 commits, whatever calls were made. |
| `RateGate.WindowBound` | src/llpublisher.cpp:169-177 | Times at least a gap apart put at most floor(T / gap) + 1 of themselves in any window of length T. |
| `RateGate.ReadGate.Read` | src/llsubscriber.cpp:243-252 | A read passes exactly when there is no limit, none passed before, or an interval has gone by; a limited gate is charged on passing, not on success. |
| `RateGate.ReadGate.ReadsInWindow` | src/llsubscriber.cpp:243-252 | Any window of length T holds at most floor(T / I) + 1 accepted reads. |
| `CommandRing.PushKeeps` | src/llinternal.h:302-322 | Every field and byte store of a push, and a crash at any point, keeps the ring and any pop in progress intact. |
| `CommandRing.PopKeeps` | src/llinternal.h:324-345 | Every load and store of a pop, and a crash at any point, keeps the ring and any push in progress intact. |
| `RingTheorems.RingRefinesFifo` | src/llinternal.h:302-345 | Every interleaved step is a step of a bounded FIFO queue or leaves it alone; push is refused exactly when the queue is full, pop exactly when it is empty. |
| `RingTheorems.RingIsFifo` | src/llinternal.h:302-345 | In every reachable state the pops are the first pushes, once each, in order and intact, across counter wrap; the cell being read is never the one being written. |
| `RingTheorems.MaskingNeedsPowerOfTwo` | src/llinternal.h:191-192 | Masking equals modulo for every counter if and only if the configuration's power-of-two test passes. |
| `RingWitness.NullPushDeliversOldBytes` | src/llinternal.h:318-319 | For every ring size and every byte v some run pops v from a null push, v having come from an earlier command in that cell. |
| `RingClass.LLRing.Push` | src/llinternal.h:302-322 | Fails without effect exactly when oversized or full; otherwise the command joins the back of the queue. |
| `RingClass.LLRing.Pop` | src/llinternal.h:324-345 | Fails without effect exactly when empty; otherwise returns and removes the front. |
| `RingClass.LLRing.Pending` | src/llinternal.h:347-354 | Returns the length of the queue. |
| `Ownership.AtMostOneHolder` | src/llsubscriber.cpp:132-153 | With distinct tokens only, at most one subscriber's token is the current claim. |
| `Ownership.ClaimsExactlyIfFree` | src/llsubscriber.cpp:132-153 | From every reachable state an undisturbed newcomer gets the channel if and only if it is unclaimed or its heartbeat is 8 s old; otherwise it ends attached without it and the owner is left alone. |
| `Ownership.FreeChannelCanBeHad` | src/llsubscriber.cpp:132-153 | Under every condition on runs, a free channel can be claimed by any newcomer from every reachable state (if openings are serialised, once pending claims have beaten). |
| `Ownership.PassesExactlyIfHolds` | src/llsubscriber.cpp:78-88 | `still_owns_commands` passes if and only if the subscriber's claim is the current one, and then refreshes the heartbeat; anyone else is told it has lost the channel. |
| `Ownership.HeartbeatHolds` | src/llsubscriber.cpp:78-88 | A claimant that stores a heartbeat, nobody being poised to take its claim, still holds the channel after every run shorter than 8 s in which it does not detach, whatever others do. |
| `Ownership.DetachKeepsOthers` | src/llsubscriber.cpp:163-174 | A destructor frees the channel if and only if it still holds it, and never clears another subscriber's claim. |
| `Ownership.LossIsForever` | src/llsubscriber.cpp:78-88 | A subscriber that was refused or stolen from never owns the channel again in that session. |
| `Ownership.ExclusionWhenSerialised` | src/llsubscriber.cpp:132-153 | With the two-store claim, timely heartbeats and no claim judged before its live claimant's first heartbeat, no live owner is stolen from and at most one live subscriber passes `still_owns_commands`. |
| `Ownership.TwoOwnersWithoutSerialisedOpen` | src/llsubscriber.cpp:145-150 | Without that condition some run puts two live subscribers past `still_owns_commands`, every heartbeat being fresh. |
| `Ownership.TwoOwnersWithoutTimelyBeats` | src/llsubscriber.cpp:136-141 | An owner that stalls in mid-operation for the stale window is stolen from while inside. |
| `Ownership.ExclusionIffSerialisedAndTimely` | src/llsubscriber.cpp:132-153 | Exclusion holds in all reachable states if and only if no claim is judged before its live claimant's first heartbeat and heartbeats are timely. |
| `CommandChannel.OnePusherOnePopper` | src/llsubscriber.cpp:343-376 | The ownership protocol gives each ring one pusher and one popper in every reachable state, never on the same cell. |
| `CommandChannel.LosslessAndOrdered` | src/llsubscriber.cpp:343-376 | Both directions deliver the first pushes once each, in order and intact, across hand-overs, crashes in mid-operation and counter wrap. |
| `CommandChannel.PublisherAccounting` | src/llpublisher.cpp:268-284 | `sent` is the downstream head, the k-th command popped has id k across hand-overs, sent = popped + pending, and between calls every send is counted once as sent or dropped. |
| `CommandChannel.RefusedSendKeepsId` | src/llpublisher.cpp:274-281 | In every step ids, `sent` and published commands move together; a send is dropped exactly when oversized or when the ring is full, and then no id and no ring changes. |
| `Layout.LayoutNeverOverflows` | src/llinternal.h:197-215 | For every valid configuration no step of the 64-bit layout computation wraps. |
| `Layout.LayoutIsSound` | src/llinternal.h:184-247 | Header, slot headers, payloads, ring headers and command cells start on cache lines, are pairwise disjoint and lie inside total_size. |
| `Layout.HeaderPublication` | src/llpublisher.cpp:114-142 | A peer reading field by field while `create` stores is refused if it read the magic too early, and otherwise obtains exactly the creator's layout, configuration and session. |
| `Layout.PublishedHeaderValidates` | src/llinternal.h:253-285 | A published header validates to the creator's layout exactly when the mapping is large enough. |
| `Layout.AcceptsExactlyPublished` | src/llinternal.h:253-285 | Validation accepts a mapping if and only if its header is one some `create` could have published for a segment no larger than it, and returns that creator's layout: a wrong magic, version, configuration or offset is refused. |
| `Addresses.ReadersStayInBounds` | src/llsubscriber.cpp:256-304 | In every reachable state, torn or not, a reader's next access lies in its region and the byte to copy has room in the caller's buffer. |
| `Addresses.RingStaysInBounds` | src/llinternal.h:308-344 | In every reachable ring state the next access of pusher and popper lies in its region, and cell accesses of the two share no byte. |
| `Lifecycle.OneLivePublisherPerName` | src/llpublisher.cpp:69-112 | With timely heartbeats a name has at most one live publisher, bound to its segment, and a second `create` is refused and changes nothing. |
| `Lifecycle.BindingUntouched` | src/llpublisher.cpp:59-112 | The binding of a live publisher changes only by its own destructor. |
| `Lifecycle.HeartbeatProtects` | src/llpublisher.cpp:82-106 | Within the challenger's stale window of a live publisher's heartbeat, or of the create it began with, every valid create of its name returns AlreadyExists. |
| `Lifecycle.RefusedExactly` | src/llpublisher.cpp:73-112 | create returns InvalidConfig exactly for what it cannot lay out, and AlreadyExists exactly when the name is bound to a valid header, not shut down, with a heartbeat inside the window; foreign and corrupt segments are taken over. |
| `Lifecycle.ShutdownFreesName` | src/llpublisher.cpp:59-67 | A clean shutdown marks the segment, unbinds the name, and the next create succeeds at once. |
| `Lifecycle.CrashedNameIsReclaimed` | src/llpublisher.cpp:82-112 | Once a crashed producer's window has passed, the next `create` succeeds and ends live and bound to the name. |
| `Lifecycle.LeftoverIsReclaimed` | src/llpublisher.cpp:79-112 | A create that failed on its mapping leaves the name unbound, or bound to the object it could not map; neither blocks the next create. |
| `Lifecycle.DisplacedDestructorUnlinksSuccessor` | src/llpublisher.cpp:59-67 | For every configuration `create` accepts, some run without timely heartbeats ends with a live publisher whose name is bound to nothing. |
| `Lifecycle.NamesKeptIffTimely` | src/llpublisher.cpp:59-112 | Live publishers keep their names in every run if and only if heartbeats are timely. |
| `Reconnect.Subscriber.TryConnect` | src/llsubscriber.cpp:91-158 | Adopts a valid segment of another session, configuration and layout taken from its header, tx on its upstream and rx on its downstream ring, `last_frame` reset; changes nothing for the same session or an invalid candidate. |
| `Reconnect.Subscriber.Poll` | src/llsubscriber.cpp:196-231 | For all host states: recent progress, or a heartbeat younger than stale_ns, gives true and changes nothing; otherwise false and no change until retry_ns after the last attempt; then the name is re-opened, both clocks are set, and the answer is whether what is mapped now beats. Keeps the layout relation, last_attempt <= last_progress and the spacing of attempts. |
| `Reconnect.PollVerdict` | src/llsubscriber.cpp:196-231 | The wrapping subtractions poll compares are, for heartbeats not in the future, exactly those plain conditions. |
| `Reconnect.Subscriber.AttemptsInWindow` | src/llsubscriber.cpp:224-229 | However often `poll` is called, any window of length T holds at most floor(T / retry_ns) + 1 re-open attempts. |
| `Reconnect.OpenedStaysInOrder` | src/llsubscriber.cpp:176-231 | Every run of a subscriber from the moment it is opened keeps all of this with the default retry interval. |
| `Reconnect.AttemptsAreRateLimited` | src/llsubscriber.cpp:91-231 | In every run an attached subscriber keeps L = compute_layout(remote) with tx and rx crossed against the publisher's, last_attempt <= last_progress, and re-open attempts are at least retry_ns apart. |
| `Reconnect.RestartRecovery` | src/llsubscriber.cpp:196-231 | With a new valid session on the name and the old producer quiet, polls up to one at or after max(last_progress, last old heartbeat) + stale_ns end attached to it with `last_frame` 0. |
| `Recovery.CrashReclaimReattach` | src/llpublisher.cpp:69-157 | Host and subscriber run together: a producer crashes, another reclaims the name, and whatever other publishers do meanwhile a subscriber of the old one that polls at or after max(last_progress, last old heartbeat) + stale_ns is attached to the new one, with `last_frame` 0. |
| `Canvas.Regenerate` | examples/multiview_producer.cpp:114-130 | Every pixel becomes its checkerboard square's colour; all accesses in bounds. |
| `Canvas.CheckerAlternates` | examples/multiview_producer.cpp:114-130 | The corner square has the first colour and neighbouring squares alternate, which determines the pattern. |
| `Canvas.DrawMark` | examples/multiview_producer.cpp:133-148 | Exactly the pixels of the clipped square change, and only if its centre is on the canvas. |
| `SlotPool.ApplyCommands` | examples/multiview_producer.cpp:306-344 | The commands act one after another; the size follows the clamped resizes and canvas size = width * height * 4 is kept. |
| `SlotPool.EffectsOnSize` | examples/multiview_producer.cpp:310-340 | Whatever the series of commands, the final size is that of the last effective resize, the colour that of the last text, and bookkeeping fields are untouched. |
| `SlotPool.EffectsOnDirty` | examples/multiview_producer.cpp:310-340 | A series of commands asks for a repaint if it sets a colour or changes the size, and not if it holds only marks and sizes the canvas already has. |
| `SlotPool.ServiceSlot` | examples/multiview_producer.cpp:278-350 | A live slot is freed if and only if it is claimed by a stale owner, or unclaimed for the full grace period. Otherwise a chosen colour survives unless a new consumer arrives or asks for another, the size follows the resizes, the whole canvas is repainted when that is due and not otherwise, and it stays within its maxima. |
| `SlotPool.Pool.Request` | examples/multiview_producer.cpp:254-263 | Takes the lowest free index, with a blank canvas of the default size and no consumer met yet, or changes nothing when all are taken or the segment cannot be created. |
| `SlotPool.Pool.Tick` | examples/multiview_producer.cpp:276-351 | Every live slot is freed if and only if its owner is stale or it was idle for the grace period, and is serviced otherwise; the history grows by events that say truly what the tick found at each slot and what became of it. |
| `SlotPool.Pool.NeverAssignedTwice` | examples/multiview_producer.cpp:244-303 | In every run an index assigned twice was freed in between. |
| `SlotPool.Pool.IdleFreeAfterGrace` | examples/multiview_producer.cpp:291-303 | A slot freed for idleness saw no assignment and no attached consumer for the whole grace period. |
| `SlotPool.Pool.FreedForCause` | examples/multiview_producer.cpp:278-303 | In every run a slot was freed only by a tick that found it claimed by a stale owner, or unclaimed with every earlier event of its index a grace period old; no stale owner ever counted as activity. |
| `SlotPool.PublishInBounds` | examples/multiview_producer.cpp:353-356 | Publishing a live slot passes the size check of its view's segment, reads exactly its canvas, and meets all that `publish` asks of a caller. |

## Left out

- Weak-memory reasoning about the individual fences and orderings.
- src/llsegment.cpp: Boost.Interprocess and Windows section lifetime; names are a map to segments.
- `create` as several steps: two creators racing on the same stale name.
- The clock, session-id generation and the conversion of rates in Hz to intervals; times, ids and intervals are parameters.
- Wrapping of slot counters and frame ids at 64 bits (62 for the id inside `latest`).
- Changing a rate interval or the stale timeout in the middle of a run; the window bounds are for a fixed interval.
- What happens after `begin_write` grants a size whose product wrapped: the frame path is modelled for granted sizes that did not wrap, and `FrameTheorems.GeometryCheckExact` says which those are.
- `PublisherClass.Publisher.Publish`: a granted size that wrapped is not a call of the model, because the copy then leaves the slot or the announced record is no image of the source.
- Calls on an object without a mapping, which return at once.
- The `producer_shutdown` flag a subscriber keeps, and other plain getters.
- The publisher's heartbeat word in the frame path; it is part of `Lifecycle` and `Reconnect` only.
- The vector overload of `read_latest`, which sizes a buffer and calls the modelled one.
- The subscriber's own command ids and the dropped and received counters of commands: plain increments.
- `has_subscriber` and `command_owner_stale` appear in the slot pool as what a tick finds out, not as loads.
- Replies on the control channel, packing and unpacking of command payloads, and the random choices of the multiview producer, which are inputs.
- `write_bmp_bgra`, `to_string`, the other example programs, OpenGL and vendored code.
