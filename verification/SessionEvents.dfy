/**
 * The status stream of a session: in-process events merged with periodic reads of the store, under
 * a filter that lets every status through once and only forwards.
 */
module SessionEvents {
  import opened Wrappers

  datatype Status = Active | Fetched | Completed | Failed | Expired | Cancelled

  function Rank(s: Status): nat {
    match s
    case Active => 0
    case Fetched => 1
    case _ => 2
  }

  predicate IsTerminal(s: Status) {
    Rank(s) == Rank(Completed)
  }

  /** Why a session failed: `failureCode` and `errorReason`. */
  datatype Reason = Reason(error: Option<string>, message: Option<string>)

  /** A session as the store holds it. */
  datatype Session = Session(status: Status, failureCode: Option<string>, errorReason: Option<string>)

  datatype Snapshot = Snapshot(status: Status, failure: Option<Reason>)

  datatype Message = Message(status: Status, failure: Option<Reason>)

  function FailureOf(s: Session): Option<Reason> {
    if s.status != Failed then None else Some(Reason(s.failureCode, s.errorReason))
  }

  /** What a read of the store brings back. */
  datatype ReadResult = Found(session: Session) | NotFound | ReadFailed

  // ---- One subscriber -------------------------------------------------------------------

  /** `queue` holds accepted snapshots that concatMap has not finished, `sent` what the client got. */
  datatype StreamState = StreamState(last: Option<Status>, closed: bool, queue: seq<Snapshot>, sent: seq<Message>)

  const FRESH := StreamState(None, false, [], [])

  /** takeWhile, filter, takeWhile: one snapshot, or None once the session is gone. */
  function Accept(s: StreamState, snapshot: Option<Snapshot>): StreamState {
    if s.closed then s
    else
      match snapshot
      case None => s.(closed := true)
      case Some(n) =>
        if s.last.Some? && Rank(n.status) <= Rank(s.last.value) then s
        else s.(last := Some(n.status), queue := s.queue + [n], closed := IsTerminal(n.status))
  }

  predicate NeedsReason(n: Snapshot) {
    n.status == Failed && n.failure.None?
  }

  /** withFailureReason, given the extra read. */
  function WithFailureReason(n: Snapshot, read: ReadResult): Snapshot {
    if !NeedsReason(n) then n
    else
      match read
      case Found(session) => n.(failure := FailureOf(session))
      case _ => n
  }

  /** The oldest accepted snapshot becomes a message. */
  function Send(s: StreamState, read: ReadResult): StreamState
    requires s.queue != []
  {
    var n := WithFailureReason(s.queue[0], read);
    s.(queue := s.queue[1..], sent := s.sent + [Message(n.status, if n.status == Failed then n.failure else None)])
  }

  /** The closure of getSessionEvents. */
  class Subscription {
    const sessionId: string
    var last: Option<Status>
    var closed: bool
    var queue: seq<Snapshot>
    var sent: seq<Message>

    constructor (sessionId: string)
      ensures this.sessionId == sessionId && State() == FRESH
    {
      this.sessionId := sessionId;
      last, closed, queue, sent := None, false, [], [];
    }

    function State(): StreamState
      reads this
    {
      StreamState(last, closed, queue, sent)
    }

    method OnSnapshot(snapshot: Option<Snapshot>)
      modifies this
      ensures State() == Accept(old(State()), snapshot)
    {
      if closed {
        return;
      }
      if snapshot.None? {
        closed := true;
        return;
      }
      var status := snapshot.value.status;
      if last.Some? && Rank(status) <= Rank(last.value) {
        return;
      }
      last := Some(status);
      queue := queue + [snapshot.value];
      if IsTerminal(status) {
        closed := true;
      }
    }

    /** handleSessionStatusChanged, as this subscriber sees it. */
    method OnEvent(eventSessionId: string, status: Status)
      modifies this
      ensures eventSessionId == sessionId ==> State() == Accept(old(State()), Some(Snapshot(status, None)))
      ensures eventSessionId != sessionId ==> State() == old(State())
    {
      if eventSessionId == sessionId {
        OnSnapshot(Some(Snapshot(status, None)));
      }
    }

    /** The end of a poll: readStatus. */
    method OnPoll(read: ReadResult)
      modifies this
      ensures State() == PollResult(old(State()), read)
    {
      match read
      case Found(session) => OnSnapshot(Some(Snapshot(session.status, FailureOf(session))));
      case NotFound => OnSnapshot(None);
      case ReadFailed =>
    }

    method SendNext(read: ReadResult)
      requires queue != []
      modifies this
      ensures State() == Send(old(State()), read)
    {
      var snapshot := queue[0];
      if snapshot.status == Failed && snapshot.failure.None? && read.Found? {
        snapshot := snapshot.(failure := FailureOf(read.session));
      }
      queue := queue[1..];
      sent := sent + [Message(snapshot.status, if snapshot.status == Failed then snapshot.failure else None)];
    }
  }

  function PollResult(s: StreamState, read: ReadResult): StreamState {
    match read
    case Found(session) => Accept(s, Some(Snapshot(session.status, FailureOf(session))))
    case NotFound => Accept(s, None)
    case ReadFailed => s
  }

  // ---- The system -----------------------------------------------------------------------

  /** `since` is the number of commits when the poll was started. */
  datatype Poll = Idle | Reading(since: nat) | HasRead(since: nat, result: ReadResult)

  /**
   * All commits of the session by all replicas, the statuses announced for it after its deletion, one
   * subscriber, and the reads made for its messages.
   */
  datatype World = World(history: seq<Session>, deleted: bool, phantoms: seq<Status>, poll: Poll,
                         stream: StreamState, lookups: seq<ReadResult>)

  datatype Step =
    | Commit(session: Session)
    | Delete
    | Phantom(status: Status)
    | LiveEvent(index: nat)
    | PhantomEvent(index: nat)
    | StartPoll
    | PollSees(index: nat)
    | PollMisses
    | PollFails
    | PollEnds
    | SendWith(read: ReadResult)

  /**
   * Every interleaving: commits of any status over any other by any replica, events of this one for any
   * earlier commit at any time, deletion, events for updates that hit no row after it, reads that see any
   * state since they were started, failing reads, and delayed delivery.
   */
  predicate Enabled(w: World, step: Step) {
    match step
    case Commit(_) => !w.deleted
    case Delete => true
    case Phantom(_) => w.deleted
    case LiveEvent(i) => i < |w.history|
    case PhantomEvent(i) => i < |w.phantoms|
    case StartPoll => w.poll.Idle? && !w.stream.closed
    case PollSees(i) => w.poll.Reading? && w.poll.since <= i + 1 && i < |w.history|
    case PollMisses => w.poll.Reading? && w.deleted
    case PollFails => w.poll.Reading?
    case PollEnds => w.poll.HasRead?
    case SendWith(read) => w.stream.queue != [] && (read.Found? ==> read.session in w.history)
  }

  function Next(w: World, step: Step): World
    requires Enabled(w, step)
  {
    match step
    case Commit(session) => w.(history := w.history + [session])
    case Delete => w.(deleted := true)
    case Phantom(status) => w.(phantoms := w.phantoms + [status])
    case LiveEvent(i) => w.(stream := Accept(w.stream, Some(Snapshot(w.history[i].status, None))))
    case PhantomEvent(i) => w.(stream := Accept(w.stream, Some(Snapshot(w.phantoms[i], None))))
    case StartPoll => w.(poll := Reading(|w.history|))
    case PollSees(i) => w.(poll := HasRead(w.poll.since, Found(w.history[i])))
    case PollMisses => w.(poll := HasRead(w.poll.since, NotFound))
    case PollFails => w.(poll := HasRead(w.poll.since, ReadFailed))
    case PollEnds => w.(poll := Idle, stream := PollResult(w.stream, w.poll.result))
    case SendWith(read) => w.(stream := Send(w.stream, read), lookups := w.lookups + [read])
  }

  predicate Start(w: World) {
    w.history != [] && !w.deleted && w.phantoms == [] && w.poll.Idle? && w.stream == FRESH && w.lookups == []
  }

  /** The worlds reachable by some run. */
  ghost predicate Runs(w: World, steps: seq<Step>, end: World)
    decreases |steps|
  {
    if steps == [] then end == w
    else Enabled(w, steps[0]) && Runs(Next(w, steps[0]), steps[1..], end)
  }

  // ---- What holds of the stream alone ---------------------------------------------------

  /** The statuses the client got and is about to get. */
  function Emitted(s: StreamState): seq<Status> {
    seq(|s.sent|, i requires 0 <= i < |s.sent| => s.sent[i].status)
    + seq(|s.queue|, i requires 0 <= i < |s.queue| => s.queue[i].status)
  }

  predicate Rising(es: seq<Status>) {
    forall i, j :: 0 <= i < j < |es| ==> Rank(es[i]) < Rank(es[j])
  }

  ghost predicate GoodStream(s: StreamState) {
    && Rising(Emitted(s))
    && (s.last.None? <==> Emitted(s) == [])
    && (s.last.Some? ==> s.last.value == Emitted(s)[|Emitted(s)| - 1])
    && (s.last.Some? && IsTerminal(s.last.value) ==> s.closed)
  }

  lemma AcceptEmits(s: StreamState, n: Option<Snapshot>)
    ensures var es := Emitted(Accept(s, n));
      es == Emitted(s) || (n.Some? && !s.closed && es == Emitted(s) + [n.value.status])
    ensures s.closed ==> Accept(s, n) == s
  {
  }

  lemma AcceptGood(s: StreamState, n: Option<Snapshot>)
    requires GoodStream(s)
    ensures GoodStream(Accept(s, n))
  {
    AcceptEmits(s, n);
    if !s.closed && n.Some? && (s.last.None? || Rank(n.value.status) > Rank(s.last.value)) {
      var es := Emitted(s);
      assert Emitted(Accept(s, n)) == es + [n.value.status];
      assert forall i :: 0 <= i < |es| ==> Rank(es[i]) <= Rank(es[|es| - 1]);
    }
  }

  lemma SendEmits(s: StreamState, read: ReadResult)
    requires s.queue != []
    ensures Emitted(Send(s, read)) == Emitted(s)
  {
  }

  /**
   * Whatever arrives in whatever order, the client gets at most three statuses of strictly rising
   * rank, and nothing after a terminal one.
   */
  lemma RisingIsShort(es: seq<Status>)
    requires Rising(es)
    ensures |es| <= 3
    ensures forall i :: 0 <= i < |es| - 1 ==> !IsTerminal(es[i])
  {
    if |es| > 3 {
      assert Rank(es[0]) < Rank(es[1]) < Rank(es[2]) < Rank(es[3]);
    }
    forall i | 0 <= i < |es| - 1
      ensures !IsTerminal(es[i])
    {
      assert Rank(es[i]) < Rank(es[|es| - 1]);
    }
  }

  // ---- What holds in every run ----------------------------------------------------------

  predicate InHistory(history: seq<Session>, status: Status) {
    exists i :: 0 <= i < |history| && history[i].status == status
  }

  /** Committed by the store, or announced for the session after its deletion. */
  predicate Announced(w: World, status: Status) {
    InHistory(w.history, status) || status in w.phantoms
  }

  ghost predicate GoodPoll(w: World) {
    match w.poll
    case Idle => true
    case Reading(since) => 1 <= since <= |w.history|
    case HasRead(since, result) =>
      && 1 <= since <= |w.history|
      && (result.NotFound? ==> w.deleted)
      && (result.Found? ==> exists i :: since - 1 <= i < |w.history| && w.history[i] == result.session)
  }

  /** `error` is the failure code of the failed session, `message` its reason. */
  predicate IsReasonOf(reason: Reason, session: Session) {
    session.status == Failed && reason.error == session.failureCode && reason.message == session.errorReason
  }

  /** A reason always comes from a failed state of this session. */
  predicate KnownReason(history: seq<Session>, status: Status, failure: Option<Reason>) {
    failure.Some? ==> status == Failed && exists i :: 0 <= i < |history| && IsReasonOf(failure.value, history[i])
  }

  /** A failed message has a reason if the read made for it found the session failed. */
  predicate CompleteReason(m: Message, read: ReadResult) {
    m.status == Failed && read.Found? && read.session.status == Failed ==> m.failure.Some?
  }

  ghost predicate GoodReasons(w: World) {
    && (forall i :: 0 <= i < |w.stream.queue| ==>
          KnownReason(w.history, w.stream.queue[i].status, w.stream.queue[i].failure))
    && (forall i :: 0 <= i < |w.stream.sent| ==>
          KnownReason(w.history, w.stream.sent[i].status, w.stream.sent[i].failure))
    && |w.lookups| == |w.stream.sent|
    && (forall i :: 0 <= i < |w.stream.sent| ==> CompleteReason(w.stream.sent[i], w.lookups[i]))
  }

  ghost predicate GoodWorld(w: World) {
    && w.history != []
    && GoodStream(w.stream)
    && GoodPoll(w)
    && (w.phantoms != [] ==> w.deleted)
    && (forall status :: status in Emitted(w.stream) ==> Announced(w, status))
    && (w.stream.closed ==> w.deleted || (w.stream.last.Some? && IsTerminal(w.stream.last.value)))
    && GoodReasons(w)
  }

  lemma AcceptReasons(w: World, n: Option<Snapshot>, v: World)
    requires GoodReasons(w) && v == w.(stream := Accept(w.stream, n))
    requires n.Some? ==> KnownReason(w.history, n.value.status, n.value.failure)
    ensures GoodReasons(v)
  {
    hide KnownReason, CompleteReason;
  }

  lemma AcceptKeeps(w: World, n: Option<Snapshot>, v: World)
    requires GoodWorld(w) && v == w.(stream := Accept(w.stream, n))
    requires n.None? ==> w.deleted
    requires n.Some? ==> Announced(w, n.value.status) && KnownReason(w.history, n.value.status, n.value.failure)
    ensures GoodWorld(v)
  {
    hide Announced, KnownReason, GoodReasons;
    AcceptGood(w.stream, n);
    AcceptEmits(w.stream, n);
    AcceptReasons(w, n, v);
    assert forall status :: Announced(v, status) <==> Announced(w, status) by {
      AnnouncedSame(w, v);
    }
  }

  lemma AnnouncedSame(w: World, v: World)
    requires v.history == w.history && v.phantoms == w.phantoms
    ensures forall status :: Announced(v, status) <==> Announced(w, status)
  {
  }

  lemma SendReasons(w: World, read: ReadResult, v: World)
    requires GoodReasons(w) && w.stream.queue != [] && (read.Found? ==> read.session in w.history)
    requires v == w.(stream := Send(w.stream, read), lookups := w.lookups + [read])
    ensures GoodReasons(v)
  {
    var n, m := w.stream.queue[0], WithFailureReason(w.stream.queue[0], read);
    assert KnownReason(w.history, m.status, m.failure) by {
      assert KnownReason(w.history, n.status, n.failure);
      if NeedsReason(n) && read.Found? {
        var i :| 0 <= i < |w.history| && w.history[i] == read.session;
      }
    }
    forall i | 0 <= i < |v.stream.sent|
      ensures KnownReason(w.history, v.stream.sent[i].status, v.stream.sent[i].failure)
      ensures CompleteReason(v.stream.sent[i], v.lookups[i])
    {
      if i < |w.stream.sent| {
        assert v.stream.sent[i] == w.stream.sent[i] && v.lookups[i] == w.lookups[i];
      }
    }
    forall i | 0 <= i < |v.stream.queue|
      ensures KnownReason(w.history, v.stream.queue[i].status, v.stream.queue[i].failure)
    {
      assert v.stream.queue[i] == w.stream.queue[i + 1];
    }
  }

  lemma SendKeeps(w: World, read: ReadResult, v: World)
    requires GoodWorld(w) && w.stream.queue != [] && (read.Found? ==> read.session in w.history)
    requires v == w.(stream := Send(w.stream, read), lookups := w.lookups + [read])
    ensures GoodWorld(v)
  {
    hide Announced, GoodReasons;
    SendEmits(w.stream, read);
    SendReasons(w, read, v);
    AnnouncedSame(w, v);
  }

  lemma CommitKeeps(w: World, session: Session, v: World)
    requires GoodWorld(w) && v == w.(history := w.history + [session])
    ensures GoodWorld(v)
  {
    hide GoodStream, CompleteReason;
    assert forall i :: 0 <= i < |w.history| ==> v.history[i] == w.history[i];
    assert forall status :: InHistory(w.history, status) ==> InHistory(v.history, status);
    assert forall status, failure :: KnownReason(w.history, status, failure) ==>
      KnownReason(v.history, status, failure);
  }

  lemma NextKeeps(w: World, step: Step)
    requires GoodWorld(w) && Enabled(w, step)
    ensures GoodWorld(Next(w, step))
  {
    hide GoodStream, InHistory, KnownReason, CompleteReason;
    var v := Next(w, step);
    match step
    case Commit(session) => CommitKeeps(w, session, v);
    case Delete =>
    case Phantom(_) =>
    case LiveEvent(i) =>
      FromHistory(w.history, i);
      AcceptKeeps(w, Some(Snapshot(w.history[i].status, None)), v);
    case PhantomEvent(i) =>
      NoReason(w.history, w.phantoms[i]);
      AcceptKeeps(w, Some(Snapshot(w.phantoms[i], None)), v);
    case StartPoll => NonEmpty(w);
    case PollSees(i) =>
    case PollMisses =>
    case PollFails =>
    case PollEnds => PollEndKeeps(w, v);
    case SendWith(read) => SendKeeps(w, read, v);
  }

  lemma NonEmpty(w: World)
    requires GoodWorld(w)
    ensures |w.history| >= 1
  {
  }

  lemma NoReason(history: seq<Session>, status: Status)
    ensures KnownReason(history, status, None)
  {
  }

  lemma FromHistory(history: seq<Session>, i: nat)
    requires i < |history|
    ensures InHistory(history, history[i].status)
    ensures KnownReason(history, history[i].status, None)
    ensures KnownReason(history, history[i].status, FailureOf(history[i]))
  {
  }

  lemma PollEndKeeps(w: World, v: World)
    requires GoodWorld(w) && w.poll.HasRead? && v == Next(w, PollEnds)
    ensures GoodWorld(v)
  {
    hide GoodStream, InHistory, KnownReason, GoodReasons;
    var idle := w.(poll := Idle);
    assert GoodWorld(idle) by {
      IdleIsGood(w);
    }
    match w.poll.result
    case Found(session) =>
      var i :| w.poll.since - 1 <= i < |w.history| && w.history[i] == session;
      FromHistory(w.history, i);
      AcceptKeeps(idle, Some(Snapshot(session.status, FailureOf(session))), v);
    case NotFound => AcceptKeeps(idle, None, v);
    case ReadFailed =>
  }

  lemma IdleIsGood(w: World)
    requires GoodWorld(w)
    ensures GoodWorld(w.(poll := Idle))
  {
    hide GoodStream, KnownReason, CompleteReason, InHistory;
  }

  lemma {:induction false} RunsKeep(w: World, steps: seq<Step>, end: World)
    requires GoodWorld(w) && Runs(w, steps, end)
    ensures GoodWorld(end)
    decreases |steps|
  {
    if steps != [] {
      NextKeeps(w, steps[0]);
      RunsKeep(Next(w, steps[0]), steps[1..], end);
    }
  }

  // ---- The guarantees -------------------------------------------------------------------

  /** The statuses with which a session ends. */
  predicate IsEnd(s: Status) {
    s == Completed || s == Failed || s == Expired || s == Cancelled
  }

  /** At most one status of each stage, active before fetched before one that ends the session. */
  predicate InOrder(es: seq<Status>) {
    forall i :: 0 <= i < |es| ==>
      && (es[i] == Active ==> i == 0)
      && (es[i] == Fetched ==> i == 0 || (i == 1 && es[0] == Active))
      && (IsEnd(es[i]) ==> i == |es| - 1)
  }

  lemma RisingIsInOrder(es: seq<Status>)
    requires Rising(es)
    ensures InOrder(es) && |es| <= 3
  {
    RisingIsShort(es);
    forall i | 0 <= i < |es|
      ensures es[i] == Active ==> i == 0
      ensures es[i] == Fetched ==> i == 0 || (i == 1 && es[0] == Active)
      ensures IsEnd(es[i]) ==> i == |es| - 1
    {
      if i > 0 {
        assert Rank(es[0]) < Rank(es[i]);
      }
      if i > 1 {
        assert Rank(es[0]) < Rank(es[1]) < Rank(es[i]);
      }
    }
  }

  /** A status that ends the session closes the stream. */
  predicate EndsWithTerminal(s: StreamState) {
    forall status :: status in Emitted(s) && IsEnd(status) ==> s.closed
  }

  /**
   * In every run, whatever the store does: the client gets at most three statuses, of strictly rising rank,
   * each of them committed (or announced for the session after its deletion); nothing follows a terminal
   * one; the stream is still open unless it ended so or the session is gone; every failure reason is one
   * the store recorded; and a failed message carries one whenever its read found the session failed.
   */
  lemma StreamIsFaithful(start: World, steps: seq<Step>, end: World)
    requires Start(start) && Runs(start, steps, end)
    ensures var es := Emitted(end.stream);
      && Rising(es) && InOrder(es) && |es| <= 3 && (forall status :: status in es ==> Announced(end, status))
      && EndsWithTerminal(end.stream)
      && (end.stream.closed ==> end.deleted || (es != [] && IsEnd(es[|es| - 1])))
    ensures |end.lookups| == |end.stream.sent|
    ensures forall i :: 0 <= i < |end.stream.sent| ==> GoodMessage(end, i)
  {
    RunsKeep(start, steps, end);
    hide Runs, InOrder, Announced, KnownReason, CompleteReason;
    RisingIsInOrder(Emitted(end.stream));
    EndsAreTerminal(end.stream);
  }

  lemma EndsAreTerminal(s: StreamState)
    requires GoodStream(s)
    ensures EndsWithTerminal(s)
    ensures s.last.Some? && IsTerminal(s.last.value) ==>
      Emitted(s) != [] && IsEnd(Emitted(s)[|Emitted(s)| - 1])
  {
    hide Emitted;
    var es := Emitted(s);
    RisingIsInOrder(es);
    hide Rising;
    forall status | status in es && IsEnd(status)
      ensures s.closed
    {
      var i :| 0 <= i < |es| && es[i] == status;
      assert i == |es| - 1 && s.last == Some(status);
    }
  }

  predicate GoodMessage(w: World, i: nat)
    requires i < |w.stream.sent| == |w.lookups|
  {
    && KnownReason(w.history, w.stream.sent[i].status, w.stream.sent[i].failure)
    && CompleteReason(w.stream.sent[i], w.lookups[i])
  }

  /** `es` can be obtained from the statuses of `history` by leaving some out. */
  predicate IsSubsequence(es: seq<Status>, history: seq<Session>) {
    if es == [] then true
    else if history == [] then false
    else if es[0] == history[0].status then IsSubsequence(es[1..], history[1..])
    else IsSubsequence(es, history[1..])
  }

  /** A store that never moves back, though it may stay or change among statuses of one rank. */
  predicate NeverBack(history: seq<Session>) {
    forall i, j :: 0 <= i < j < |history| ==> Rank(history[i].status) <= Rank(history[j].status)
  }

  lemma {:induction false} RisingIsSubsequence(es: seq<Status>, history: seq<Session>)
    requires Rising(es) && forall status :: status in es ==> InHistory(history, status)
    requires NeverBack(history)
    ensures IsSubsequence(es, history)
    decreases |history|
  {
    if es != [] {
      assert es[0] in es;
      assert InHistory(history, es[0]);
      var rest := history[1..];
      var remaining := if es[0] == history[0].status then es[1..] else es;
      forall status | status in remaining
        ensures InHistory(rest, status)
      {
        var k :| 0 <= k < |remaining| && remaining[k] == status;
        assert status in es;
        var i :| 0 <= i < |history| && history[i].status == status;
        if es[0] == history[0].status {
          assert remaining[k] == es[k + 1];
          assert Rank(history[0].status) < Rank(status);
        } else {
          var first :| 0 <= first < |history| && history[first].status == es[0];
          assert Rank(history[0].status) <= Rank(es[0]) <= Rank(status);
          assert k > 0 ==> Rank(es[0]) < Rank(status);
          assert i > 0;
        }
        assert rest[i - 1] == history[i];
      }
      RisingIsSubsequence(remaining, rest);
    }
  }

  /** Against a store that never moves back the statuses are a subsequence of the store's history. */
  lemma StreamIsSubsequence(start: World, steps: seq<Step>, end: World)
    requires Start(start) && Runs(start, steps, end) && NeverBack(end.history) && end.phantoms == []
    ensures IsSubsequence(Emitted(end.stream), end.history)
  {
    RunsKeep(start, steps, end);
    RisingIsSubsequence(Emitted(end.stream), end.history);
  }

  /** An open stream gives the status it receives unless it has given one of that rank. */
  lemma AcceptDelivers(s: StreamState, n: Snapshot)
    requires !s.closed
    ensures var v := Accept(s, Some(n));
      && v.last.Some? && Rank(v.last.value) >= Rank(n.status)
      && Emitted(v) == Emitted(s) + (if s.last.Some? && Rank(s.last.value) >= Rank(n.status) then [] else [n.status])
  {
    AcceptEmits(s, Some(n));
  }

  /**
   * A successful poll is not lost: a stream still open when it ends has then given a status of at least the
   * rank the poll saw, and on a store that never moves back, at least the rank of the last commit before
   * the poll was started; if it had not, it gives exactly the status seen.
   */
  lemma PollDelivers(start: World, steps: seq<Step>, w: World)
    requires Start(start) && Runs(start, steps, w)
    requires w.poll.HasRead? && w.poll.result.Found? && !w.stream.closed
    ensures var end, seen := Next(w, PollEnds), w.poll.result.session.status;
      && end.stream.last.Some? && Rank(end.stream.last.value) >= Rank(seen)
      && Emitted(end.stream) == Emitted(w.stream)
           + (if w.stream.last.Some? && Rank(w.stream.last.value) >= Rank(seen) then [] else [seen])
    ensures 1 <= w.poll.since <= |w.history|
    ensures NeverBack(w.history) ==>
      Rank(Next(w, PollEnds).stream.last.value) >= Rank(w.history[w.poll.since - 1].status)
  {
    PollGives(w);
    RunsKeep(start, steps, w);
    hide Runs, GoodStream, GoodReasons, Announced, Next, Emitted, NeverBack;
    var seen := w.poll.result.session;
    var i :| w.poll.since - 1 <= i < |w.history| && w.history[i] == seen;
    if NeverBack(w.history) {
      RankGrows(w.history, w.poll.since - 1, i);
    }
  }

  lemma PollGives(w: World)
    requires w.poll.HasRead? && w.poll.result.Found? && !w.stream.closed
    ensures var end, seen := Next(w, PollEnds), w.poll.result.session.status;
      && end.stream.last.Some? && Rank(end.stream.last.value) >= Rank(seen)
      && Emitted(end.stream) == Emitted(w.stream)
           + (if w.stream.last.Some? && Rank(w.stream.last.value) >= Rank(seen) then [] else [seen])
  {
    hide Accept, Emitted, FailureOf;
    var seen := w.poll.result.session;
    AcceptDelivers(w.stream, Snapshot(seen.status, FailureOf(seen)));
  }

  lemma RankGrows(history: seq<Session>, i: nat, j: nat)
    requires NeverBack(history) && i <= j < |history|
    ensures Rank(history[i].status) <= Rank(history[j].status)
  {
  }

  /** Nor is an event lost on an open stream: it gives the status unless it has given one of that rank. */
  lemma EventDelivers(w: World, i: nat)
    requires i < |w.history| && !w.stream.closed
    ensures var v, status := Next(w, LiveEvent(i)), w.history[i].status;
      && v.stream.last.Some? && Rank(v.stream.last.value) >= Rank(status)
      && Emitted(v.stream) == Emitted(w.stream)
           + (if w.stream.last.Some? && Rank(w.stream.last.value) >= Rank(status) then [] else [status])
  {
    AcceptDelivers(w.stream, Snapshot(w.history[i].status, None));
  }

  /** A poll that finds the session gone ends an open stream without a further status. */
  lemma MissCloses(w: World)
    requires w.poll.HasRead? && w.poll.result.NotFound? && !w.stream.closed
    ensures var v := Next(w, PollEnds); v.stream.closed && Emitted(v.stream) == Emitted(w.stream)
  {
  }

  // ---- Terminal statuses ----------------------------------------------------------------

  /** No terminal commit is followed by a commit of another status. */
  predicate Steadfast(history: seq<Session>) {
    forall i, j :: 0 <= i < j < |history| && IsTerminal(history[i].status) ==> history[j].status == history[i].status
  }

  /** The store was terminal after its first `n` commits. */
  predicate WasTerminal(history: seq<Session>, n: nat) {
    1 <= n <= |history| && IsTerminal(history[n - 1].status)
  }

  /**
   * Once a steadfast store is terminal, the first successful poll started afterwards ends a stream that is
   * still open, with that status.
   */
  lemma PollDeliversTerminal(start: World, steps: seq<Step>, w: World)
    requires Start(start) && Runs(start, steps, w) && Steadfast(w.history)
    requires w.poll.HasRead? && w.poll.result.Found? && !w.stream.closed
    requires WasTerminal(w.history, w.poll.since)
    ensures var end, final := Next(w, PollEnds), w.history[w.poll.since - 1].status;
      && end.stream.closed && end.stream.last == Some(final)
      && Emitted(end.stream) == Emitted(w.stream) + [final]
  {
    RunsKeep(start, steps, w);
    hide Runs, GoodReasons, Announced, Accept, Emitted, FailureOf, Rising;
    var seen, final := w.poll.result.session, w.history[w.poll.since - 1].status;
    var i :| w.poll.since - 1 <= i < |w.history| && w.history[i] == seen;
    assert seen.status == final;
    OpenIsNotTerminal(w.stream);
    AcceptEnds(w.stream, Snapshot(seen.status, FailureOf(seen)));
  }

  lemma AcceptEnds(s: StreamState, n: Snapshot)
    requires !s.closed && IsTerminal(n.status) && (s.last.Some? ==> Rank(s.last.value) < 2)
    ensures var v := Accept(s, Some(n)); v.closed && v.last == Some(n.status) && Emitted(v) == Emitted(s) + [n.status]
  {
    AcceptEmits(s, Some(n));
  }

  lemma OpenIsNotTerminal(s: StreamState)
    requires GoodStream(s) && !s.closed
    ensures s.last.Some? ==> Rank(s.last.value) < 2
  {
  }

  /** The terminal status that the client was given, if any, is the session's current one. */
  ghost predicate TerminalIsCurrent(w: World) {
    forall status :: status in Emitted(w.stream) && IsTerminal(status) ==>
      w.history != [] && w.history[|w.history| - 1].status == status
  }

  /** The store has committed a beginning of `history`, and nobody announced a deleted session. */
  predicate IsMoment(history: seq<Session>, w: World) {
    w.history <= history && w.phantoms == []
  }

  /** At every moment of every run in which the store commits `history` and nobody announces a deleted session. */
  ghost predicate AlwaysCurrent(history: seq<Session>) {
    forall start, steps, end :: Start(start) && Runs(start, steps, end) && IsMoment(history, end) ==>
      TerminalIsCurrent(end)
  }

  lemma {:induction false} CommitAll(w: World, sessions: seq<Session>) returns (steps: seq<Step>)
    requires !w.deleted
    ensures Runs(w, steps, w.(history := w.history + sessions))
    decreases |sessions|
  {
    if sessions == [] {
      steps := [];
      assert w.history + [] == w.history;
    } else {
      var step := Commit(sessions[0]);
      var v := Next(w, step);
      var more := CommitAll(v, sessions[1..]);
      steps := [step] + more;
      assert steps[1..] == more;
      assert w.history + [sessions[0]] + sessions[1..] == w.history + sessions;
    }
  }

  /** A terminal status that was overwritten: an event announces it, and the client never hears of the second. */
  lemma OverwrittenTerminal(history: seq<Session>, i: nat, j: nat)
    requires i < j < |history| && IsTerminal(history[i].status) && history[j].status != history[i].status
    ensures !AlwaysCurrent(history)
  {
    var start := World(history[..i + 1], false, [], Idle, FRESH, []);
    var event := LiveEvent(i);
    var told := Next(start, event);
    var more := CommitAll(told, history[i + 1..j + 1]);
    var steps, end := [event] + more, told.(history := told.history + history[i + 1..j + 1]);
    assert steps[1..] == more;
    assert Runs(start, steps, end);
    assert end.history == history[..j + 1] && end.history <= history;
    AcceptEmits(FRESH, Some(Snapshot(history[i].status, None)));
    assert Emitted(end.stream) == [history[i].status];
    assert history[i].status in Emitted(end.stream);
    assert !TerminalIsCurrent(end);
  }

  /**
   * What the stream owes to the store: the terminal status it ends with is the session's status, then and
   * ever after in every run, exactly when no terminal commit is followed by a different one.
   * `ChangeSessionState.execute` alone does not see to that, since it writes without looking.
   */
  lemma CurrentExactlyWhenSteadfast(history: seq<Session>)
    ensures AlwaysCurrent(history) <==> Steadfast(history)
  {
    hide Runs, TerminalIsCurrent;
    if !Steadfast(history) {
      var i, j :| 0 <= i < j < |history| && IsTerminal(history[i].status) && history[j].status != history[i].status;
      OverwrittenTerminal(history, i, j);
    } else {
      forall start, steps, end | Start(start) && Runs(start, steps, end) && IsMoment(history, end)
        ensures TerminalIsCurrent(end)
      {
        RunsKeep(start, steps, end);
        SteadfastIsCurrent(history, end);
      }
    }
  }

  lemma SteadfastIsCurrent(history: seq<Session>, w: World)
    requires Steadfast(history) && GoodWorld(w) && w.history <= history && w.phantoms == []
    ensures TerminalIsCurrent(w)
  {
    forall status | status in Emitted(w.stream) && IsTerminal(status)
      ensures w.history[|w.history| - 1].status == status
    {
      assert Announced(w, status);
      var i :| 0 <= i < |w.history| && w.history[i].status == status;
      assert history[i] == w.history[i] && history[|w.history| - 1] == w.history[|w.history| - 1];
    }
  }
}
