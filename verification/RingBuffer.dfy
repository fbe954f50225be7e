/** Submitting work to a command ring against a consumer that executes submissions in order, at its own pace. */
module RingBuffer {
  const RING_SIZE: nat := 16384
  const RING_DWORDS: nat := 4096
  const TWO_TO_32: nat := 0x1_0000_0000

  /** One batch buffer on one engine; `flush` stands for the engine's own flush commands. */
  datatype Job = Job(mmioEngine: nat, saveRestore: nat, gfxAddress: nat, flush: seq<nat>)

  function BatchBufferJump(job: Job): seq<nat> {
    [0x11000001, job.mmioEngine + 0x2244, job.saveRestore,
     0x18800101, job.gfxAddress % TWO_TO_32, job.gfxAddress / TWO_TO_32 % TWO_TO_32]
  }

  function StoreFence(fenceAddress: nat, fence: nat): seq<nat> {
    [0x10400002, fenceAddress % TWO_TO_32, 0, fence]
  }

  /** The dwords of a submission: jump, flush, store the fence; padded to an even number. */
  function Commands(job: Job, fenceAddress: nat, fence: nat): seq<nat> {
    var commands := BatchBufferJump(job) + job.flush + StoreFence(fenceAddress, fence);
    if |commands| % 2 != 0 then commands + [0] else commands
  }

  predicate Fits(job: Job) {
    |Commands(job, 0, 0)| < RING_DWORDS
  }

  /** Where a submission starts and its dwords. Positions in the ring are counted in dwords: ringTail is 4 * tail bytes. */
  datatype Submission = Submission(start: nat, commands: seq<nat>)

  function End(s: Submission): nat {
    s.start + |s.commands|
  }

  /** The ring and its history: `done` submissions have stored their fence; `lap` is the first since the last wrap. */
  datatype Ring = Ring(tail: nat, fence: nat, memory: seq<nat>, submissions: seq<Submission>, done: nat, lap: nat)

  function Zeros(n: nat): seq<nat> {
    seq(n, i => 0)
  }

  function WriteAt(memory: seq<nat>, offset: nat, data: seq<nat>): (r: seq<nat>)
    requires offset + |data| <= |memory|
    ensures |r| == |memory|
  {
    memory[..offset] + data + memory[offset + |data|..]
  }

  /** Fill to the end with no-ops, start over at 0, and wait until every fence so far has been stored. */
  function Wrap(r: Ring): Ring
    requires r.tail <= RING_DWORDS && |r.memory| == RING_DWORDS
  {
    Ring(0, r.fence, WriteAt(r.memory, r.tail, Zeros(RING_DWORDS - r.tail)), r.submissions, |r.submissions|, |r.submissions|)
  }

  function Append(r: Ring, commands: seq<nat>): Ring
    requires r.tail + |commands| <= RING_DWORDS && |r.memory| == RING_DWORDS
  {
    Ring(r.tail + |commands|, r.fence + 1, WriteAt(r.memory, r.tail, commands), r.submissions + [Submission(r.tail, commands)],
         r.done, r.lap)
  }

  predicate NeedsWrap(r: Ring, commands: seq<nat>) {
    4 * r.tail + 4 * |commands| >= RING_SIZE
  }

  /** submitBatchBuffer */
  function Submit(r: Ring, job: Job, fenceAddress: nat): Ring
    requires r.tail < RING_DWORDS && |r.memory| == RING_DWORDS && Fits(job)
  {
    var commands := Commands(job, fenceAddress, r.fence + 1);
    Append(if NeedsWrap(r, commands) then Wrap(r) else r, commands)
  }

  /** The consumer finishes its next submission, if there is one. */
  function Complete(r: Ring): Ring {
    if r.done < |r.submissions| then r.(done := r.done + 1) else r
  }

  // ---- the invariant ----

  /** The dwords of a submission are in the ring, unharmed. */
  predicate Intact(memory: seq<nat>, s: Submission) {
    End(s) <= |memory| && memory[s.start..End(s)] == s.commands
  }

  /** It ends by storing this fence. */
  predicate StoresFence(s: Submission, fenceAddress: nat, fence: nat) {
    var n := |s.commands|;
    && n >= 5
    && (s.commands[n - 4..] == StoreFence(fenceAddress, fence) || s.commands[n - 5..n - 1] == StoreFence(fenceAddress, fence))
  }

  ghost predicate InRing(r: Ring, fenceAddress: nat) {
    && r.tail < RING_DWORDS && r.tail % 2 == 0 && |r.memory| == RING_DWORDS
    && r.lap <= r.done <= |r.submissions| == r.fence
    && forall i :: 0 <= i < |r.submissions| ==>
         && r.submissions[i].start % 2 == 0 && |r.submissions[i].commands| % 2 == 0 && End(r.submissions[i]) < RING_DWORDS
         && StoresFence(r.submissions[i], fenceAddress, i + 1)
  }

  /** This lap's submissions lie end to end from 0 to the tail, and those not yet done are unharmed. */
  ghost predicate Queued(r: Ring) {
    && (r.lap == |r.submissions| ==> r.tail == 0)
    && (r.lap < |r.submissions| ==> r.submissions[r.lap].start == 0 && End(r.submissions[|r.submissions| - 1]) == r.tail)
    && (forall i :: r.lap < i < |r.submissions| ==> r.submissions[i].start == End(r.submissions[i - 1]))
    && (forall i :: r.lap <= i < |r.submissions| ==> End(r.submissions[i]) <= r.tail)
    && (forall i :: r.done <= i < |r.submissions| ==> Intact(r.memory, r.submissions[i]))
  }

  /** After a wrap there is always a submission; beyond both the tail and the end of the last lap there are only no-ops. */
  ghost predicate Padded(r: Ring) {
    r.lap > 0 ==>
      && r.lap < |r.submissions|
      && forall d :: End(r.submissions[r.lap - 1]) <= d < |r.memory| && r.tail <= d ==> r.memory[d] == 0
  }

  ghost predicate Valid(r: Ring, fenceAddress: nat) {
    InRing(r, fenceAddress) && Queued(r) && Padded(r)
  }

  lemma CommandsFacts(job: Job, fenceAddress: nat, fence: nat)
    ensures var c := Commands(job, fenceAddress, fence);
      && |c| % 2 == 0 && |c| >= 10 && |c| == |Commands(job, 0, 0)|
      && StoresFence(Submission(0, c), fenceAddress, fence)
  {
    var body := BatchBufferJump(job) + job.flush;
    var c := Commands(job, fenceAddress, fence);
    assert c[|body|..|body| + 4] == StoreFence(fenceAddress, fence);
  }

  lemma IntactBelow(a: seq<nat>, offset: nat, data: seq<nat>, s: Submission)
    requires offset + |data| <= |a| && Intact(a, s) && End(s) <= offset
    ensures Intact(WriteAt(a, offset, data), s)
  {
    assert WriteAt(a, offset, data)[s.start..End(s)] == a[s.start..End(s)];
  }

  lemma JustWritten(a: seq<nat>, offset: nat, data: seq<nat>)
    requires offset + |data| <= |a|
    ensures Intact(WriteAt(a, offset, data), Submission(offset, data))
  {
  }

  /** A submission that fits before the end of the ring. */
  lemma AppendKeepsValid(r: Ring, job: Job, fenceAddress: nat)
    requires InRing(r, fenceAddress) && Queued(r) && Fits(job)
    requires r.lap > 0 ==> forall d :: End(r.submissions[r.lap - 1]) <= d < |r.memory| && r.tail <= d ==> r.memory[d] == 0
    requires !NeedsWrap(r, Commands(job, fenceAddress, r.fence + 1))
    ensures Valid(Append(r, Commands(job, fenceAddress, r.fence + 1)), fenceAddress)
  {
    hide Commands, InRing, Queued;
    var commands := Commands(job, fenceAddress, r.fence + 1);
    CommandsFacts(job, fenceAddress, r.fence + 1);
    AppendInRing(r, commands, fenceAddress);
    AppendQueued(r, commands, fenceAddress);
    AppendPadded(r, commands, fenceAddress);
  }

  lemma AppendQueued(r: Ring, commands: seq<nat>, fenceAddress: nat)
    requires InRing(r, fenceAddress) && Queued(r) && !NeedsWrap(r, commands)
    ensures Queued(Append(r, commands))
  {
    hide StoresFence, Intact, WriteAt;
    var r' := Append(r, commands);
    JustWritten(r.memory, r.tail, commands);
    forall i | r'.done <= i < |r'.submissions| ensures Intact(r'.memory, r'.submissions[i]) {
      if i < |r.submissions| {
        assert Intact(r.memory, r.submissions[i]);
        IntactBelow(r.memory, r.tail, commands, r.submissions[i]);
      }
    }
  }

  lemma AppendPadded(r: Ring, commands: seq<nat>, fenceAddress: nat)
    requires InRing(r, fenceAddress) && !NeedsWrap(r, commands)
    requires r.lap > 0 ==> forall d :: End(r.submissions[r.lap - 1]) <= d < |r.memory| && r.tail <= d ==> r.memory[d] == 0
    ensures Padded(Append(r, commands))
  {
    hide StoresFence;
  }

  lemma AppendInRing(r: Ring, commands: seq<nat>, fenceAddress: nat)
    requires InRing(r, fenceAddress) && !NeedsWrap(r, commands)
    requires |commands| % 2 == 0 && StoresFence(Submission(0, commands), fenceAddress, r.fence + 1)
    ensures InRing(Append(r, commands), fenceAddress)
  {
    hide StoreFence;
  }

  lemma WrapReady(r: Ring, fenceAddress: nat)
    requires Valid(r, fenceAddress) && |r.submissions| > 0
    ensures var w := Wrap(r);
      && InRing(w, fenceAddress) && Queued(w) && w.lap > 0
      && forall d :: End(w.submissions[w.lap - 1]) <= d < |w.memory| && w.tail <= d ==> w.memory[d] == 0
  {
    hide StoresFence;
    assert r.lap < |r.submissions|;
  }

  lemma NothingToWrap(r: Ring, job: Job, fenceAddress: nat)
    requires Valid(r, fenceAddress) && Fits(job) && NeedsWrap(r, Commands(job, fenceAddress, r.fence + 1))
    ensures |r.submissions| > 0
  {
    hide Commands, StoresFence;
    CommandsFacts(job, fenceAddress, r.fence + 1);
  }

  /** Every submission keeps the ring valid: the tail stays in the ring and 8-byte aligned, submission n stores fence n,
      and no uncompleted submission is harmed, neither by the no-op fill nor by the new commands. */
  lemma SubmitKeepsValid(r: Ring, job: Job, fenceAddress: nat)
    requires Valid(r, fenceAddress) && Fits(job)
    ensures Valid(Submit(r, job, fenceAddress), fenceAddress)
  {
    hide Commands, Valid, InRing, Queued, Padded;
    var commands := Commands(job, fenceAddress, r.fence + 1);
    ValidParts(r, fenceAddress);
    CommandsFacts(job, fenceAddress, r.fence + 1);
    if NeedsWrap(r, commands) {
      NothingToWrap(r, job, fenceAddress);
      WrapReady(r, fenceAddress);
      AppendKeepsValid(Wrap(r), job, fenceAddress);
    } else {
      AppendKeepsValid(r, job, fenceAddress);
    }
  }

  lemma ValidParts(r: Ring, fenceAddress: nat)
    requires Valid(r, fenceAddress)
    ensures InRing(r, fenceAddress) && Queued(r) && r.tail < RING_DWORDS && |r.memory| == RING_DWORDS
    ensures r.lap > 0 ==> r.lap < |r.submissions|
    ensures r.lap > 0 ==>
      forall d :: End(r.submissions[r.lap - 1]) <= d < |r.memory| && r.tail <= d ==> r.memory[d] == 0
  {
  }

  lemma CompleteKeepsValid(r: Ring, fenceAddress: nat)
    requires Valid(r, fenceAddress)
    ensures Valid(Complete(r), fenceAddress)
  {
    hide StoresFence;
  }

  // ---- which bytes are written, and when ----

  /** A stretch of the ring misses every submission that is not done. */
  ghost predicate MissesPending(r: Ring, low: nat, high: nat) {
    forall i :: r.done <= i < |r.submissions| ==> End(r.submissions[i]) <= low || high <= r.submissions[i].start
  }

  /** The no-op fill happens before the wait, the commands after it; both stay in the ring and miss every uncompleted submission. */
  lemma WritesMissUncompleted(r: Ring, job: Job, fenceAddress: nat)
    requires Valid(r, fenceAddress) && Fits(job)
    ensures var commands := Commands(job, fenceAddress, r.fence + 1);
      if NeedsWrap(r, commands) then
        && MissesPending(r, r.tail, RING_DWORDS)
        && MissesPending(Wrap(r), 0, |commands|) && |commands| < RING_DWORDS
      else MissesPending(r, r.tail, r.tail + |commands|) && r.tail + |commands| < RING_DWORDS
  {
    hide Commands, StoresFence;
    CommandsFacts(job, fenceAddress, r.fence + 1);
  }

  // ---- what the consumer reads ----

  /** The consumer stands at the end of the last submission it completed. */
  function Head(r: Ring): nat
    requires r.done <= |r.submissions|
  {
    if r.done == 0 then 0 else End(r.submissions[r.done - 1])
  }

  /** What a ring consumer fetches: from its head up to the tail, around the end if the tail is behind it. */
  function Fetched(r: Ring): seq<nat>
    requires r.done <= |r.submissions| && r.tail < RING_DWORDS && |r.memory| == RING_DWORDS && Head(r) < RING_DWORDS
  {
    if Head(r) <= r.tail then r.memory[Head(r)..r.tail] else r.memory[Head(r)..] + r.memory[..r.tail]
  }

  function Concat(submissions: seq<Submission>): seq<nat> {
    if submissions == [] then [] else submissions[0].commands + Concat(submissions[1..])
  }

  /** The no-ops between the consumer and the start of the lap, if it has not come round yet. */
  function Gap(r: Ring): seq<nat>
    requires r.done <= |r.submissions| && Head(r) < RING_DWORDS
  {
    if r.done == r.lap && r.lap > 0 then Zeros(RING_DWORDS - Head(r)) else []
  }

  /** The consumer is still in the last lap and the tail has come round and caught up with it. */
  predicate Lapped(r: Ring)
    requires r.done <= |r.submissions|
  {
    r.done == r.lap && r.lap > 0 && r.tail >= Head(r)
  }

  lemma {:induction false} PendingIsStretch(r: Ring, fenceAddress: nat, i: nat)
    requires Valid(r, fenceAddress) && r.done <= i < |r.submissions|
    ensures r.submissions[i].start <= r.tail <= |r.memory|
    ensures Concat(r.submissions[i..]) == r.memory[r.submissions[i].start..r.tail]
    decreases |r.submissions| - i
  {
    hide StoresFence, Intact, Concat, Padded;
    var s := r.submissions[i];
    assert Intact(r.memory, s);
    ConcatFirst(r.submissions, i);
    IntactIs(r.memory, s);
    if i + 1 < |r.submissions| {
      PendingIsStretch(r, fenceAddress, i + 1);
      assert r.submissions[i + 1].start == End(s);
      assert r.memory[s.start..r.tail] == r.memory[s.start..End(s)] + r.memory[End(s)..r.tail];
    } else {
      ConcatNothing(r.submissions[i + 1..]);
    }
  }

  lemma IntactIs(memory: seq<nat>, s: Submission)
    requires Intact(memory, s)
    ensures End(s) <= |memory| && memory[s.start..End(s)] == s.commands
  {
  }

  lemma ConcatFirst(submissions: seq<Submission>, i: nat)
    requires i < |submissions|
    ensures Concat(submissions[i..]) == submissions[i].commands + Concat(submissions[i + 1..])
  {
    assert submissions[i..][1..] == submissions[i + 1..];
  }

  lemma ConcatNothing(submissions: seq<Submission>)
    requires submissions == []
    ensures Concat(submissions) == []
  {
  }

  lemma HeadInRing(r: Ring, fenceAddress: nat)
    requires Valid(r, fenceAddress)
    ensures Head(r) < RING_DWORDS && Head(r) % 2 == 0
    ensures r.done > 0 ==> Head(r) > 0
    ensures r.done > r.lap ==> Head(r) <= r.tail
    ensures r.done < |r.submissions| ==> r.submissions[r.done].start == if r.done == r.lap then 0 else Head(r)
  {
    hide StoreFence, Intact;
  }

  lemma PendingFromHead(r: Ring, fenceAddress: nat)
    requires Valid(r, fenceAddress)
    ensures r.done <= |r.submissions| && |r.memory| == RING_DWORDS && r.tail <= |r.memory|
    ensures (r.done > r.lap || r.lap == 0) ==> Head(r) <= r.tail && Concat(r.submissions[r.done..]) == r.memory[Head(r)..r.tail]
    ensures r.done == r.lap && r.lap > 0 ==> Concat(r.submissions[r.done..]) == r.memory[..r.tail]
  {
    hide StoresFence, Intact, Concat;
    HeadInRing(r, fenceAddress);
    if r.done < |r.submissions| {
      PendingIsStretch(r, fenceAddress, r.done);
    } else {
      ConcatNothing(r.submissions[r.done..]);
    }
  }

  lemma GapIsNoops(r: Ring, fenceAddress: nat)
    requires Valid(r, fenceAddress) && r.done == r.lap && r.lap > 0 && r.tail < Head(r) <= |r.memory|
    ensures Head(r) < RING_DWORDS && r.memory[Head(r)..] == Gap(r)
  {
    hide StoresFence, Intact;
  }

  /** The consumer's fetch is exactly the pending submissions in order, after the no-ops at the end of the last lap,
      if and only if it has not been lapped. */
  lemma FetchIsQueue(r: Ring, fenceAddress: nat)
    requires Valid(r, fenceAddress)
    ensures Head(r) < RING_DWORDS
    ensures Fetched(r) == Gap(r) + Concat(r.submissions[r.done..]) <==> !Lapped(r)
  {
    hide Valid, Concat;
    ValidTail(r, fenceAddress);
    HeadInRing(r, fenceAddress);
    PendingFromHead(r, fenceAddress);
    if r.done == r.lap && r.lap > 0 {
      if r.tail < Head(r) {
        GapIsNoops(r, fenceAddress);
      } else {
        assert |Gap(r) + Concat(r.submissions[r.done..])| > |Fetched(r)|;
      }
    } else {
      assert Gap(r) + Concat(r.submissions[r.done..]) == Concat(r.submissions[r.done..]);
    }
  }

  lemma ValidTail(r: Ring, fenceAddress: nat)
    requires Valid(r, fenceAddress)
    ensures r.tail < RING_DWORDS && |r.memory| == RING_DWORDS && r.lap <= r.done <= |r.submissions|
  {
  }

  // ---- histories ----

  datatype Event = Submitted(job: Job) | Completed

  predicate EventFits(e: Event) {
    match e
    case Submitted(job) => Fits(job)
    case Completed => true
  }

  ghost function Play(r: Ring, events: seq<Event>, fenceAddress: nat): Ring
    requires Valid(r, fenceAddress) && forall e :: e in events ==> EventFits(e)
    decreases |events|
  {
    if events == [] then r
    else
      assert EventFits(events[0]);
      var r1 := match events[0]
        case Submitted(job) => (SubmitKeepsValid(r, job, fenceAddress); Submit(r, job, fenceAddress))
        case Completed => (CompleteKeepsValid(r, fenceAddress); Complete(r));
      Play(r1, events[1..], fenceAddress)
  }

  function FreshRing(memory: seq<nat>): Ring {
    Ring(0, 0, memory, [], 0, 0)
  }

  /** Over every interleaving of submissions and completions, from an empty ring. */
  lemma {:induction false} RingStaysValid(r: Ring, events: seq<Event>, fenceAddress: nat)
    requires Valid(r, fenceAddress) && forall e :: e in events ==> EventFits(e)
    ensures Valid(Play(r, events, fenceAddress), fenceAddress)
    decreases |events|
  {
    hide Valid, Submit, Complete, EventFits;
    if events != [] {
      ValidParts(r, fenceAddress);
      match events[0] {
        case Submitted(job) =>
          assert EventFits(events[0]);
          JobFits(events[0]);
          SubmitKeepsValid(r, job, fenceAddress);
          RingStaysValid(Submit(r, job, fenceAddress), events[1..], fenceAddress);
        case Completed =>
          CompleteKeepsValid(r, fenceAddress);
          RingStaysValid(Complete(r), events[1..], fenceAddress);
      }
    }
  }

  lemma JobFits(e: Event)
    requires EventFits(e) && e.Submitted?
    ensures Fits(e.job)
  {
  }

  lemma FreshRingIsValid(memory: seq<nat>, fenceAddress: nat)
    requires |memory| == RING_DWORDS
    ensures Valid(FreshRing(memory), fenceAddress)
  {
  }

  // ---- a consumer left a lap behind ----

  function Filler(n: nat): Job {
    Job(0, 0, 0, Zeros(n))
  }

  lemma FillerSize(n: nat, fenceAddress: nat, fence: nat)
    requires n % 2 == 0
    ensures |Commands(Filler(n), fenceAddress, fence)| == n + 10
    ensures n + 10 < RING_DWORDS ==> Fits(Filler(n))
  {
  }

  /** Where a submission of known size leaves the ring. */
  lemma SubmitMoves(r: Ring, n: nat, fenceAddress: nat)
    requires Valid(r, fenceAddress) && n % 2 == 0 && n + 10 < RING_DWORDS
    ensures Fits(Filler(n)) && r.tail < RING_DWORDS && |r.memory| == RING_DWORDS
    ensures var r' := Submit(r, Filler(n), fenceAddress); var size := n + 10;
      && Valid(r', fenceAddress)
      && (if r.tail + size >= RING_DWORDS then r'.tail == size && r'.done == r'.lap == |r.submissions|
          else r'.tail == r.tail + size && r'.done == r.done && r'.lap == r.lap)
      && r'.submissions[..|r.submissions|] == r.submissions && |r'.submissions| == |r.submissions| + 1
      && End(r'.submissions[|r.submissions|]) == r'.tail
  {
    hide Valid, Commands;
    ValidTail(r, fenceAddress);
    FillerSize(n, fenceAddress, r.fence + 1);
    SubmitKeepsValid(r, Filler(n), fenceAddress);
  }

  /** One submission ends the first lap, the next starts the second, and two more fill it before the consumer moves:
      the tail passes the consumer, who no longer sees the queue. */
  lemma ConsumerCanBeLapped(memory: seq<nat>, fenceAddress: nat)
    requires |memory| == RING_DWORDS
    ensures var events := [Submitted(Filler(3990)), Submitted(Filler(190)), Submitted(Filler(2990)), Submitted(Filler(840))];
      && (forall e :: e in events ==> EventFits(e))
      && Valid(FreshRing(memory), fenceAddress)
      && Lapped(Play(FreshRing(memory), events, fenceAddress))
  {
    hide Valid, Submit, Commands, Fits, Filler;
    var r0 := FreshRing(memory);
    FreshRingIsValid(memory, fenceAddress);
    SubmitMoves(r0, 3990, fenceAddress);
    var r1 := Submit(r0, Filler(3990), fenceAddress);
    SubmitMoves(r1, 190, fenceAddress);
    var r2 := Submit(r1, Filler(190), fenceAddress);
    SubmitMoves(r2, 2990, fenceAddress);
    var r3 := Submit(r2, Filler(2990), fenceAddress);
    SubmitMoves(r3, 840, fenceAddress);
    var r4 := Submit(r3, Filler(840), fenceAddress);
    var events := [Submitted(Filler(3990)), Submitted(Filler(190)), Submitted(Filler(2990)), Submitted(Filler(840))];
    PlayOne(r0, events, fenceAddress);
    PlayOne(r1, events[1..], fenceAddress);
    PlayOne(r2, events[2..], fenceAddress);
    PlayOne(r3, events[3..], fenceAddress);
    assert events[1..][1..] == events[2..] && events[2..][1..] == events[3..] && events[3..][1..] == [];
    PlayNone(r4, fenceAddress);
    assert r4.submissions[0] == r1.submissions[0];
  }

  lemma PlayOne(r: Ring, events: seq<Event>, fenceAddress: nat)
    requires Valid(r, fenceAddress) && (forall e :: e in events ==> EventFits(e)) && events != [] && events[0].Submitted?
    ensures Fits(events[0].job) && r.tail < RING_DWORDS && |r.memory| == RING_DWORDS
    ensures Valid(Submit(r, events[0].job, fenceAddress), fenceAddress)
    ensures Play(r, events, fenceAddress) == Play(Submit(r, events[0].job, fenceAddress), events[1..], fenceAddress)
  {
    hide Valid, Submit;
    assert EventFits(events[0]);
    ValidTail(r, fenceAddress);
    SubmitKeepsValid(r, events[0].job, fenceAddress);
  }

  lemma PlayNone(r: Ring, fenceAddress: nat)
    requires Valid(r, fenceAddress)
    ensures Play(r, [], fenceAddress) == r
  {
  }

  // ---- the object ----

  /** A hardware context: the ring it writes, and the tail it publishes in its context image. */
  class HardwareContext {
    const fenceAddress: nat
    var ringTail: nat
    var contextFenceValue: nat
    var lrcaRingTail: nat
    const ring: array<nat>
    ghost var submissions: seq<Submission>
    ghost var done: nat
    ghost var lap: nat

    constructor (fenceAddress: nat)
      ensures Holds() && this.fenceAddress == fenceAddress && State().submissions == []
    {
      this.fenceAddress := fenceAddress;
      ringTail, contextFenceValue, lrcaRingTail := 0, 0, 0;
      ring := new nat[RING_DWORDS];
      submissions, done, lap := [], 0, 0;
    }

    ghost function State(): Ring
      reads this, ring
    {
      Ring(ringTail / 4, contextFenceValue, ring[..], submissions, done, lap)
    }

    ghost predicate Holds()
      reads this, ring
    {
      ringTail % 8 == 0 && Valid(State(), fenceAddress)
    }

    /** Copy dwords into the ring. */
    method WriteMemory(offset: nat, data: seq<nat>)
      requires offset % 4 == 0 && offset / 4 + |data| <= ring.Length
      modifies ring
      ensures ring[..] == WriteAt(old(ring[..]), offset / 4, data)
    {
      var first := offset / 4;
      for i := 0 to |data|
        invariant ring[first..first + i] == data[..i]
        invariant forall d :: 0 <= d < ring.Length && !(first <= d < first + i) ==> ring[d] == old(ring[d])
      {
        ring[first + i] := data[i];
      }
    }

    /** The poll returns once the consumer has stored the last fence, and so everything before it. */
    ghost method PollForCompletion()
      modifies this`done
      ensures done == |submissions|
    {
      done := |submissions|;
    }

    /** Fill with no-ops from the tail to the end, start over at 0 and wait. */
    method WrapAround()
      requires ringTail % 8 == 0 && ringTail < RING_SIZE && ring.Length == RING_DWORDS
      modifies this, ring
      ensures ringTail == 0 && contextFenceValue == old(contextFenceValue) && State() == Wrap(old(State()))
    {
      hide WriteAt;
      var sizeToNoop := RING_SIZE - ringTail;
      WriteMemory(ringTail, Zeros(sizeToNoop / 4));
      ringTail := 0;
      PollForCompletion();
      lap := |submissions|;
    }

    /** Write the commands at the tail and publish the new one. */
    method AppendCommands(ringCommands: seq<nat>)
      requires ringTail % 8 == 0 && |ringCommands| % 2 == 0 && ringTail / 4 + |ringCommands| <= ring.Length == RING_DWORDS
      modifies this, ring
      ensures State() == Append(old(State()), ringCommands)
      ensures ringTail % 8 == 0 && lrcaRingTail == ringTail == old(ringTail) + 4 * |ringCommands|
      ensures contextFenceValue == old(contextFenceValue) + 1
    {
      hide WriteAt;
      contextFenceValue := contextFenceValue + 1;
      WriteMemory(ringTail, ringCommands);
      submissions := submissions + [Submission(ringTail / 4, ringCommands)];
      ringTail := ringTail + 4 * |ringCommands|;
      lrcaRingTail := ringTail;
    }

    method SubmitBatchBuffer(job: Job)
      requires Holds() && Fits(job)
      modifies this, ring
      ensures State() == Submit(old(State()), job, fenceAddress) && Holds()
      ensures lrcaRingTail == ringTail < RING_SIZE && contextFenceValue == old(contextFenceValue) + 1
    {
      hide Commands, Valid, WriteAt, StoresFence, Wrap, Append;
      ghost var r := State();
      ValidTail(r, fenceAddress);
      CommandsFacts(job, fenceAddress, contextFenceValue + 1);
      SubmitKeepsValid(r, job, fenceAddress);
      var ringCommands := Commands(job, fenceAddress, contextFenceValue + 1);
      var sizeCommandsInBytes := 4 * |ringCommands|;
      assert ring.Length == |r.memory|;
      if ringTail + sizeCommandsInBytes >= RING_SIZE {
        WrapAround();
      }
      AppendCommands(ringCommands);
      ValidTail(State(), fenceAddress);
    }
  }
}
