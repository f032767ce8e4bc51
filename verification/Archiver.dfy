/** The batching archiver: events wait in a buffer, a flush takes the whole buffer and uploads it
    outside the lock, and a failed upload puts its batch back in front. */
module Archiver {
  import opened Bytes
  import opened HashChain
  import opened Decimals
  import Seqs

  datatype Object = Object(key: string, batch: seq<Event>)

  /** The flushTimer field: nil, set and still to fire, or set although it has fired. */
  datatype Timer = Off | Armed | Fired

  /** How a flush ends. An upload may store its object and still return an error. */
  datatype Outcome = Stored | Rejected | Doubtful | Unencodable

  /** `toSchedule` and `toFlush` count the calls about to set the timer and about to flush; `flights` are
      the batches of flushes under way. History: what was archived, dropped, and put back although its
      object was stored. */
  datatype State = State(
    pending: seq<Event>, timer: Timer, toSchedule: nat, toFlush: nat, flights: seq<seq<Event>>, objects: seq<Object>,
    archived: seq<Event>, dropped: seq<Event>, copies: seq<Event>)

  const INITIAL := State([], Off, 0, 0, [], [], [], [], [])

  /** Where objects go, the rendering of a time as YYYY/MM/DD/HH, and when a flush starts. */
  datatype Config = Config(prefix: string, hour: int64 -> string, batchSize: nat)

  function ArchiveKey(cfg: Config, batch: seq<Event>): string {
    if batch == [] then cfg.prefix + "empty.jsonl"
    else
      cfg.prefix + cfg.hour(batch[0].createdAt) + "/"
      + (Decimal(batch[0].id) + "-" + (Decimal(batch[|batch| - 1].id) + ".jsonl"))
  }

  lemma KeyText(cfg: Config, batch: seq<Event>)
    requires batch != []
    ensures var first, last := batch[0], batch[|batch| - 1];
      ArchiveKey(cfg, batch)
        == cfg.prefix + cfg.hour(first.createdAt) + "/" + Decimal(first.id) + "-" + Decimal(last.id) + ".jsonl"
  {
    hide Decimal;
    var first, last := Decimal(batch[0].id), Decimal(batch[|batch| - 1].id);
    var dir := cfg.prefix + cfg.hour(batch[0].createdAt) + "/";
    Seqs.Assoc(dir, first + "-", last + ".jsonl");
    Seqs.Assoc(dir, first, "-");
    Seqs.Assoc(first, "-", last + ".jsonl");
    Seqs.Assoc(dir + first + "-", last, ".jsonl");
  }

  /** Archive appends and decides what its call does next; Schedule is the rest of such a call;
      CallFlush is a flush asked for from outside; BeginFlush is the locked first half of any flush. */
  datatype Action =
    | Archive(events: seq<Event>)
    | Schedule
    | TimerFires
    | CallFlush
    | BeginFlush
    | Finish(flight: nat, outcome: Outcome)

  predicate Enabled(s: State, a: Action) {
    match a
    case Archive(events) => events != []
    case Schedule => s.toSchedule > 0
    case TimerFires => s.timer == Armed
    case CallFlush => true
    case BeginFlush => s.toFlush > 0
    case Finish(i, _) => i < |s.flights|
  }

  function Archived(cfg: Config, s: State, events: seq<Event>): State {
    var s' := s.(pending := s.pending + events, archived := s.archived + events);
    if |s'.pending| >= cfg.batchSize then s'.(toFlush := s.toFlush + 1) else s'.(toSchedule := s.toSchedule + 1)
  }

  function Finished(cfg: Config, s: State, i: nat, outcome: Outcome): State
    requires i < |s.flights|
  {
    var batch, s' := s.flights[i], s.(flights := s.flights[..i] + s.flights[i + 1..]);
    match outcome
    case Stored => s'.(objects := s.objects + [Object(ArchiveKey(cfg, batch), batch)])
    case Rejected => s'.(pending := batch + s.pending)
    case Doubtful =>
      s'.(objects := s.objects + [Object(ArchiveKey(cfg, batch), batch)], pending := batch + s.pending,
          copies := s.copies + batch)
    case Unencodable => s'.(dropped := s.dropped + batch)
  }

  function Apply(cfg: Config, s: State, a: Action): State
    requires Enabled(s, a)
  {
    match a
    case Archive(events) => Archived(cfg, s, events)
    case Schedule => s.(toSchedule := s.toSchedule - 1, timer := if s.timer == Off then Armed else s.timer)
    case TimerFires => s.(timer := Fired, toFlush := s.toFlush + 1)
    case CallFlush => s.(toFlush := s.toFlush + 1)
    case BeginFlush =>
      var s' := s.(toFlush := s.toFlush - 1);
      if s.pending == [] then s' else s'.(pending := [], timer := Off, flights := s.flights + [s.pending])
    case Finish(i, outcome) => Finished(cfg, s, i, outcome)
  }

  /** The flush that takes the buffer. */
  predicate Takes(s: State, a: Action) { a.BeginFlush? && s.pending != [] }

  // ---- Conservation -------------------------------------------------------------------------

  function Flatten(batches: seq<seq<Event>>): seq<Event> {
    if batches == [] then [] else Flatten(batches[..|batches| - 1]) + batches[|batches| - 1]
  }

  function Batches(objects: seq<Object>): seq<seq<Event>> {
    seq(|objects|, i requires 0 <= i < |objects| => objects[i].batch)
  }

  function Uploaded(s: State): seq<Event> { Flatten(Batches(s.objects)) }

  lemma FlattenSnoc(batches: seq<seq<Event>>, batch: seq<Event>)
    ensures Flatten(batches + [batch]) == Flatten(batches) + batch
  {
    assert (batches + [batch])[..|batches|] == batches;
  }

  lemma {:induction false} FlattenRemove(batches: seq<seq<Event>>, i: nat)
    requires i < |batches|
    ensures multiset(Flatten(batches)) == multiset(Flatten(batches[..i] + batches[i + 1..])) + multiset(batches[i])
  {
    hide Flatten;
    var n := |batches| - 1;
    Seqs.InitLast(batches);
    FlattenSnoc(batches[..n], batches[n]);
    if i == n {
      assert batches[..i] + batches[i + 1..] == batches[..n];
    } else {
      FlattenRemove(batches[..n], i);
      RemoveThenSnoc(batches, i);
      FlattenSnoc(batches[..n][..i] + batches[..n][i + 1..], batches[n]);
    }
  }

  lemma RemoveThenSnoc<T>(a: seq<T>, i: nat)
    requires i < |a| - 1
    ensures var n := |a| - 1;
      a[..i] + a[i + 1..] == a[..n][..i] + a[..n][i + 1..] + [a[n]]
  {
  }

  lemma UploadedSnoc(s: State, s': State, o: Object)
    requires s'.objects == s.objects + [o]
    ensures Uploaded(s') == Uploaded(s) + o.batch
  {
    assert Batches(s'.objects) == Batches(s.objects) + [o.batch];
    FlattenSnoc(Batches(s.objects), o.batch);
  }

  /** Where events are: waiting, in flight, or uploaded. */
  ghost function Kept(s: State): multiset<Event> {
    multiset(s.pending) + multiset(Flatten(s.flights)) + multiset(Uploaded(s))
  }

  /** Every archived event is in exactly one place, but for batches that could not be encoded and for
      those put back although they were stored. */
  ghost predicate Conserved(s: State) {
    multiset(s.archived) + multiset(s.copies) == Kept(s) + multiset(s.dropped)
  }

  ghost predicate Tidy(cfg: Config, s: State) {
    && (forall i | 0 <= i < |s.flights| :: s.flights[i] != [])
    && (forall i | 0 <= i < |s.objects| ::
          s.objects[i].batch != [] && s.objects[i].key == ArchiveKey(cfg, s.objects[i].batch))
  }

  lemma FinishConserves(cfg: Config, s: State, i: nat, outcome: Outcome)
    requires i < |s.flights| && Conserved(s)
    ensures Conserved(Finished(cfg, s, i, outcome))
  {
    hide Flatten;
    hide Batches;
    hide ArchiveKey;
    var s', f := Finished(cfg, s, i, outcome), s.flights[i];
    FlattenRemove(s.flights, i);
    if outcome == Stored || outcome == Doubtful {
      UploadedSnoc(s, s', s'.objects[|s.objects|]);
      assert multiset(Uploaded(s')) == multiset(Uploaded(s)) + multiset(f);
    } else {
      assert Uploaded(s') == Uploaded(s);
    }
    hide Uploaded;
    assert multiset(f + s.pending) == multiset(f) + multiset(s.pending);
    assert multiset(s.copies + f) == multiset(s.copies) + multiset(f);
    assert multiset(s.dropped + f) == multiset(s.dropped) + multiset(f);
    var left := multiset(Flatten(s'.flights));
    assert multiset(Flatten(s.flights)) == left + multiset(f);
    match outcome {
      case Stored => assert Kept(s') == multiset(s.pending) + left + (multiset(Uploaded(s)) + multiset(f)) == Kept(s);
      case Rejected => assert Kept(s') == (multiset(f) + multiset(s.pending)) + left + multiset(Uploaded(s)) == Kept(s);
      case Doubtful =>
        assert Kept(s') == (multiset(f) + multiset(s.pending)) + left + (multiset(Uploaded(s)) + multiset(f))
          == Kept(s) + multiset(f);
      case Unencodable => assert Kept(s) == Kept(s') + multiset(f);
    }
    hide Kept;
    var total := multiset(s.archived) + multiset(s.copies);
    assert total == Kept(s) + multiset(s.dropped);
    assert multiset(s'.archived) + multiset(s'.copies) == if outcome == Doubtful then total + multiset(f) else total;
    assert Kept(s') + multiset(s'.dropped) == if outcome == Doubtful then total + multiset(f) else total;
  }

  lemma StepConserves(cfg: Config, s: State, a: Action)
    requires Enabled(s, a) && Conserved(s)
    ensures Conserved(Apply(cfg, s, a))
  {
    hide Flatten;
    hide Batches;
    hide Finished;
    match a {
      case Finish(i, outcome) => FinishConserves(cfg, s, i, outcome);
      case BeginFlush =>
        FlattenSnoc(s.flights, s.pending);
        assert multiset(Flatten(s.flights) + s.pending) == multiset(Flatten(s.flights)) + multiset(s.pending);
      case Archive(events) =>
        assert multiset(s.pending + events) == multiset(s.pending) + multiset(events);
        assert multiset(s.archived + events) == multiset(s.archived) + multiset(events);
        assert Uploaded(Apply(cfg, s, a)) == Uploaded(s);
        assert Kept(Apply(cfg, s, a)) == Kept(s) + multiset(events);
        hide Kept;
        var total := multiset(s.archived) + multiset(s.copies);
        assert multiset(s.archived + events) + multiset(s.copies) == total + multiset(events);
        assert Kept(Apply(cfg, s, a)) + multiset(s.dropped) == (Kept(s) + multiset(s.dropped)) + multiset(events);
      case _ =>
        assert Uploaded(Apply(cfg, s, a)) == Uploaded(s);
    }
  }

  lemma StepKeepsTidy(cfg: Config, s: State, a: Action)
    requires Enabled(s, a) && Tidy(cfg, s)
    ensures Tidy(cfg, Apply(cfg, s, a))
  {
    hide ArchiveKey;
  }

  // ---- Runs ---------------------------------------------------------------------------------

  ghost predicate IsRun(cfg: Config, states: seq<State>, actions: seq<Action>) {
    && |states| == |actions| + 1 && states[0] == INITIAL
    && forall i | 0 <= i < |actions| ::
         Enabled(states[i], actions[i]) && states[i + 1] == Apply(cfg, states[i], actions[i])
  }

  /** In every interleaving of archiving, flushing, timers and upload outcomes nothing is lost or
      duplicated, except for batches that could not be encoded and those put back although stored. */
  lemma {:induction false} NothingLost(cfg: Config, states: seq<State>, actions: seq<Action>, n: nat)
    requires IsRun(cfg, states, actions) && n < |states|
    ensures Conserved(states[n]) && Tidy(cfg, states[n])
  {
    if n > 0 {
      hide Conserved;
      hide Tidy;
      hide Apply;
      NothingLost(cfg, states, actions, n - 1);
      StepConserves(cfg, states[n - 1], actions[n - 1]);
      StepKeepsTidy(cfg, states[n - 1], actions[n - 1]);
    }
  }

  ghost predicate Ends(a: Action, outcome: Outcome) { a.Finish? && a.outcome == outcome }

  lemma StepHistory(cfg: Config, s: State, a: Action)
    requires Enabled(s, a) && Tidy(cfg, s)
    ensures var s' := Apply(cfg, s, a);
      && (s'.dropped == [] <==> s.dropped == [] && !Ends(a, Unencodable))
      && (s'.copies == [] <==> s.copies == [] && !Ends(a, Doubtful))
      && s.archived <= s'.archived && |s.dropped| <= |s'.dropped| && |s.copies| <= |s'.copies|
  {
  }

  lemma {:induction false} HistoryTells(cfg: Config, states: seq<State>, actions: seq<Action>, n: nat)
    requires IsRun(cfg, states, actions) && n < |states|
    ensures states[n].dropped == [] <==> forall k | 0 <= k < n :: !Ends(actions[k], Unencodable)
    ensures states[n].copies == [] <==> forall k | 0 <= k < n :: !Ends(actions[k], Doubtful)
  {
    hide Ends;
    hide Apply;
    if n > 0 {
      HistoryTells(cfg, states, actions, n - 1);
      NothingLost(cfg, states, actions, n - 1);
      StepHistory(cfg, states[n - 1], actions[n - 1]);
    }
  }

  /** Losing an event takes an encoding failure, and an encoding failure always loses one. */
  lemma LostExactlyWhenUnencodable(cfg: Config, states: seq<State>, actions: seq<Action>, n: nat)
    requires IsRun(cfg, states, actions) && n < |states|
    ensures multiset(states[n].archived) + multiset(states[n].copies) == Kept(states[n])
       <==> forall k | 0 <= k < n :: !Ends(actions[k], Unencodable)
  {
    hide Kept;
    NothingLost(cfg, states, actions, n);
    HistoryTells(cfg, states, actions, n);
    var s := states[n];
    assert |multiset(s.archived) + multiset(s.copies)| == |Kept(s)| + |s.dropped|;
  }

  /** Duplicating one takes an upload that stores its object and reports an error, and such an upload
      always does: events are archived at least once. */
  lemma DuplicatedExactlyWhenDoubtful(cfg: Config, states: seq<State>, actions: seq<Action>, n: nat)
    requires IsRun(cfg, states, actions) && n < |states|
    ensures multiset(states[n].archived) == Kept(states[n]) + multiset(states[n].dropped)
       <==> forall k | 0 <= k < n :: !Ends(actions[k], Doubtful)
    ensures multiset(states[n].archived) <= Kept(states[n]) + multiset(states[n].dropped)
  {
    hide Kept;
    NothingLost(cfg, states, actions, n);
    HistoryTells(cfg, states, actions, n);
    var s := states[n];
    assert |multiset(s.archived)| + |s.copies| == |Kept(s) + multiset(s.dropped)|;
  }

  // ---- Order --------------------------------------------------------------------------------

  ghost predicate InOrder(s: State) {
    s.archived == Uploaded(s) + Flatten(s.flights) + s.pending
  }

  /** The oldest flight is stored, or the youngest put back. */
  predicate Orderly(s: State, a: Action) {
    a.Finish? ==> || (a.outcome == Stored && a.flight == 0)
                  || (a.outcome == Rejected && a.flight == |s.flights| - 1)
  }

  lemma {:induction false} FlattenConcat(a: seq<seq<Event>>, b: seq<seq<Event>>)
    ensures Flatten(a + b) == Flatten(a) + Flatten(b)
    decreases |b|
  {
    if b == [] {
      Seqs.Empty(a);
      Seqs.Empty(Flatten(a));
    } else {
      var n := |b| - 1;
      hide Flatten;
      FlattenConcat(a, b[..n]);
      Seqs.InitLast(b);
      Seqs.Assoc(a, b[..n], [b[n]]);
      FlattenSnoc(a + b[..n], b[n]);
      FlattenSnoc(b[..n], b[n]);
      Seqs.Assoc(Flatten(a), Flatten(b[..n]), b[n]);
    }
  }

  lemma FlattenOne(batch: seq<Event>)
    ensures Flatten([batch]) == batch && Flatten([]) == []
  {
    assert [batch][..0] == [];
  }

  /** The flights around one of them. */
  lemma FlattenAround(batches: seq<seq<Event>>, i: nat)
    requires i < |batches|
    ensures var a, b := Flatten(batches[..i]), Flatten(batches[i + 1..]);
      Flatten(batches) == a + (batches[i] + b) && Flatten(batches[..i] + batches[i + 1..]) == a + b
  {
    hide Flatten;
    var l, r := batches[..i], batches[i + 1..];
    Seqs.Around(batches, i);
    FlattenConcat(l, [batches[i]] + r);
    FlattenConcat([batches[i]], r);
    FlattenConcat(l, r);
    FlattenOne(batches[i]);
  }

  lemma FlattenNonempty(batches: seq<seq<Event>>)
    requires batches != [] && batches[|batches| - 1] != []
    ensures Flatten(batches) != []
  {
  }

  lemma TakeKeepsOrder(cfg: Config, s: State)
    requires InOrder(s) && Enabled(s, BeginFlush)
    ensures InOrder(Apply(cfg, s, BeginFlush))
  {
    hide Flatten;
    hide Batches;
    if s.pending != [] {
      FlattenSnoc(s.flights, s.pending);
      Seqs.Assoc(Uploaded(s), Flatten(s.flights), s.pending);
      Seqs.Empty(Uploaded(s) + (Flatten(s.flights) + s.pending));
    }
  }

  lemma FinishKeepsOrder(cfg: Config, s: State, i: nat, outcome: Outcome)
    requires InOrder(s) && i < |s.flights| && Orderly(s, Finish(i, outcome))
    ensures InOrder(Finished(cfg, s, i, outcome))
  {
    hide Batches;
    var s', f := Finished(cfg, s, i, outcome), s.flights[i];
    FlattenAround(s.flights, i);
    if outcome == Stored {
      assert Flatten(s.flights[..0]) == [];
      hide Flatten;
      hide ArchiveKey;
      UploadedSnoc(s, s', s'.objects[|s.objects|]);
      var b := Flatten(s.flights[1..]);
      Seqs.Empty(f + b);
      Seqs.Empty(b);
      Seqs.Assoc(Uploaded(s), f, b);
    } else {
      assert Flatten(s.flights[i + 1..]) == [];
      hide Flatten;
      var a := Flatten(s.flights[..i]);
      Seqs.Empty(f);
      Seqs.Empty(a);
      Seqs.Assoc(Uploaded(s), a, f);
      Seqs.Assoc(Uploaded(s) + a, f, s.pending);
    }
  }

  lemma StepKeepsOrder(cfg: Config, s: State, a: Action)
    requires Enabled(s, a) && InOrder(s) && Orderly(s, a)
    ensures InOrder(Apply(cfg, s, a))
  {
    hide Flatten;
    hide Batches;
    hide Finished;
    match a {
      case Archive(events) => Seqs.Assoc(Uploaded(s) + Flatten(s.flights), s.pending, events);
      case BeginFlush => TakeKeepsOrder(cfg, s);
      case Finish(i, outcome) => FinishKeepsOrder(cfg, s, i, outcome);
      case _ =>
    }
  }

  /** Sequences that differ by an exchange of two parts. */
  lemma ExchangeSeen(a: seq<Event>, x: seq<Event>, y: seq<Event>, b: seq<Event>)
    requires x != [] && y != [] && UniqueIDs(a + (x + (y + b)))
    ensures a + (x + (y + b)) != a + (y + (x + b))
  {
    var s, t := a + (x + (y + b)), a + (y + (x + b));
    assert s[|a|] == x[0] && s[|a| + |x|] == y[0] && t[|a|] == y[0];
    assert s[|a|].id != s[|a| + |x|].id;
  }

  lemma LaterStoredSeen(u: seq<Event>, a: seq<Event>, f: seq<Event>, b: seq<Event>, p: seq<Event>)
    requires a != [] && f != [] && UniqueIDs(u + (a + (f + b)) + p)
    ensures u + (a + (f + b)) + p != u + f + (a + b) + p
  {
    assert u + (a + (f + b)) + p == u + (a + (f + (b + p)));
    assert u + f + (a + b) + p == u + (f + (a + (b + p)));
    ExchangeSeen(u, a, f, b + p);
  }

  lemma EarlierPutBackSeen(u: seq<Event>, a: seq<Event>, f: seq<Event>, b: seq<Event>, p: seq<Event>)
    requires b != [] && f != [] && UniqueIDs(u + (a + (f + b)) + p)
    ensures u + (a + (f + b)) + p != u + (a + b) + (f + p)
  {
    assert u + (a + (f + b)) + p == (u + a) + (f + (b + p));
    assert u + (a + b) + (f + p) == (u + a) + (b + (f + p));
    ExchangeSeen(u + a, f, b, p);
  }

  /** Any other ending breaks the order for good reason: it exchanges two batches or repeats one. */
  lemma DisorderSeen(cfg: Config, s: State, i: nat, outcome: Outcome)
    requires InOrder(s) && i < |s.flights| && !Orderly(s, Finish(i, outcome)) && outcome != Unencodable
    requires UniqueIDs(s.archived) && forall k | 0 <= k < |s.flights| :: s.flights[k] != []
    ensures !InOrder(Finished(cfg, s, i, outcome))
  {
    hide Batches;
    hide ArchiveKey;
    hide UniqueIDs;
    var s', f, u := Finished(cfg, s, i, outcome), s.flights[i], Uploaded(s);
    FlattenAround(s.flights, i);
    var a, b := Flatten(s.flights[..i]), Flatten(s.flights[i + 1..]);
    if outcome == Stored {
      FlattenNonempty(s.flights[..i]);
      hide Flatten;
      UploadedSnoc(s, s', s'.objects[|s.objects|]);
      LaterStoredSeen(u, a, f, b, s.pending);
    } else if outcome == Rejected {
      FlattenNonempty(s.flights[i + 1..]);
      hide Flatten;
      EarlierPutBackSeen(u, a, f, b, s.pending);
    } else {
      hide Flatten;
      UploadedSnoc(s, s', s'.objects[|s.objects|]);
      assert |s.archived| == |u| + |a| + |f| + |b| + |s.pending|;
    }
  }

  lemma {:induction false} OrderlyRunInOrder(cfg: Config, states: seq<State>, actions: seq<Action>, n: nat)
    requires IsRun(cfg, states, actions) && n < |states|
    requires forall k | 0 <= k < n :: Orderly(states[k], actions[k])
    ensures forall k | 0 <= k <= n :: InOrder(states[k])
  {
    hide Orderly;
    if n > 0 {
      OrderlyRunInOrder(cfg, states, actions, n - 1);
      hide Apply;
      StepKeepsOrder(cfg, states[n - 1], actions[n - 1]);
    }
  }

  lemma {:induction false} HistoryGrows(cfg: Config, states: seq<State>, actions: seq<Action>, m: nat, n: nat)
    requires IsRun(cfg, states, actions) && m <= n < |states|
    ensures states[m].archived <= states[n].archived
    ensures |states[m].dropped| <= |states[n].dropped| && |states[m].copies| <= |states[n].copies|
  {
    if m < n {
      hide Apply;
      HistoryGrows(cfg, states, actions, m, n - 1);
      NothingLost(cfg, states, actions, n - 1);
      StepHistory(cfg, states[n - 1], actions[n - 1]);
    }
  }

  lemma OneDisorder(cfg: Config, states: seq<State>, actions: seq<Action>, n: nat, k: nat)
    requires IsRun(cfg, states, actions) && k < n < |states| && InOrder(states[k])
    requires UniqueIDs(states[n].archived) && states[n].dropped == [] && !Orderly(states[k], actions[k])
    ensures !InOrder(states[k + 1])
  {
    var s, a := states[k], actions[k];
    HistoryGrows(cfg, states, actions, k, n);
    HistoryGrows(cfg, states, actions, k + 1, n);
    assert UniqueIDs(s.archived) by {
      assert forall i | 0 <= i < |s.archived| :: s.archived[i] == states[n].archived[i];
    }
    NothingLost(cfg, states, actions, k);
    if a.outcome == Unencodable {
      StepHistory(cfg, s, a);
    }
    DisorderSeen(cfg, s, a.flight, a.outcome);
  }

  /** With unique ids and nothing dropped, uploaded objects, flights and buffer are the archived events
      in their order all along exactly when every flush so far ended by storing the oldest batch in
      flight or by putting back the youngest. */
  lemma OrderExactly(cfg: Config, states: seq<State>, actions: seq<Action>, n: nat)
    requires IsRun(cfg, states, actions) && n < |states|
    requires UniqueIDs(states[n].archived) && states[n].dropped == []
    ensures (forall k | 0 <= k <= n :: InOrder(states[k])) <==> forall k | 0 <= k < n :: Orderly(states[k], actions[k])
  {
    if forall k | 0 <= k < n :: Orderly(states[k], actions[k]) {
      OrderlyRunInOrder(cfg, states, actions, n);
    }
    if forall k | 0 <= k <= n :: InOrder(states[k]) {
      forall k | 0 <= k < n ensures Orderly(states[k], actions[k]) {
        assert InOrder(states[k]) && InOrder(states[k + 1]);
        if !Orderly(states[k], actions[k]) {
          OneDisorder(cfg, states, actions, n, k);
        }
      }
    }
  }

  /** If no two flushes overlap, the order is kept, as long as nothing is dropped or stored twice. */
  lemma OrderKept(cfg: Config, states: seq<State>, actions: seq<Action>, n: nat)
    requires IsRun(cfg, states, actions) && n < |states|
    requires forall k | 0 <= k <= n :: |states[k].flights| <= 1
    requires states[n].dropped == [] && states[n].copies == []
    ensures InOrder(states[n])
  {
    HistoryTells(cfg, states, actions, n);
    forall k | 0 <= k < n ensures Orderly(states[k], actions[k]) {
      assert !Ends(actions[k], Unencodable) && !Ends(actions[k], Doubtful);
      assert |states[k].flights| <= 1;
    }
    OrderlyRunInOrder(cfg, states, actions, n);
  }

  /** A run that goes on by one step. */
  lemma Then(cfg: Config, states: seq<State>, actions: seq<Action>, a: Action)
    returns (states': seq<State>, actions': seq<Action>, last: State)
    requires IsRun(cfg, states, actions) && Enabled(states[|states| - 1], a)
    ensures IsRun(cfg, states', actions') && last == states'[|states'| - 1] == Apply(cfg, states[|states| - 1], a)
  {
    hide Apply;
    hide Enabled;
    last := Apply(cfg, states[|states| - 1], a);
    states', actions' := states + [last], actions + [a];
  }

  /** One run with overlapping flushes in which a second flush is stored while the first is put back. */
  lemma OverlapReorders(cfg: Config, a: Event, b: Event) returns (states: seq<State>, actions: seq<Action>)
    requires a != b
    ensures IsRun(cfg, states, actions)
    ensures var last := states[|states| - 1];
      last.archived == [a, b] && last.flights == [] && Uploaded(last) + last.pending == [b, a]
  {
    hide Uploaded;
    hide Finished;
    hide IsRun;
    var s: State;
    states, actions := FirstState(cfg);
    states, actions, s := Taking(cfg, states, actions, a);
    states, actions, s := Taking(cfg, states, actions, b);
    assert s.flights == [[a]] + [[b]] && s.archived == [a, b];
    var s3, s4 := SecondFirst(cfg, s, a, b);
    states, actions, s := Then(cfg, states, actions, Finish(1, Stored));
    states, actions, s := Then(cfg, states, actions, Finish(0, Rejected));
  }

  lemma FirstState(cfg: Config) returns (states: seq<State>, actions: seq<Action>)
    ensures IsRun(cfg, states, actions) && states[|states| - 1] == INITIAL
  {
    states, actions := [INITIAL], [];
  }

  /** The second of two flights is stored, and then the first put back. */
  lemma SecondFirst(cfg: Config, s: State, a: Event, b: Event) returns (stored: State, last: State)
    requires s.flights == [[a], [b]] && s.pending == [] && s.objects == []
    ensures stored == Apply(cfg, s, Finish(1, Stored)) && Enabled(stored, Finish(0, Rejected))
    ensures last == Apply(cfg, stored, Finish(0, Rejected))
    ensures last.flights == [] && last.archived == s.archived && Uploaded(last) + last.pending == [b, a]
  {
    hide Flatten;
    hide ArchiveKey;
    stored := Apply(cfg, s, Finish(1, Stored));
    assert stored.flights == [[a]];
    last := Apply(cfg, stored, Finish(0, Rejected));
    assert last.flights == [] && last.pending == [a];
    UploadedOne(last, last.objects[0]);
  }

  /** One event archived and taken at once. */
  lemma Taking(cfg: Config, states: seq<State>, actions: seq<Action>, e: Event)
    returns (states': seq<State>, actions': seq<Action>, last: State)
    requires IsRun(cfg, states, actions) && states[|states| - 1].pending == []
    ensures IsRun(cfg, states', actions') && last == states'[|states'| - 1]
    ensures var s := states[|states| - 1];
      && last.pending == [] && last.timer == Off && last.flights == s.flights + [[e]] && last.objects == s.objects
      && last.archived == s.archived + [e] && last.toFlush + last.toSchedule == s.toFlush + s.toSchedule + 1
      && (cfg.batchSize > 1 ==> last.toSchedule == s.toSchedule + 1)
  {
    hide IsRun;
    states', actions', last := Then(cfg, states, actions, Archive([e]));
    assert last.pending == [e];
    states', actions', last := Then(cfg, states', actions', CallFlush);
    states', actions', last := Then(cfg, states', actions', BeginFlush);
  }

  lemma UploadedOne(s: State, o: Object)
    requires s.objects == [o]
    ensures Uploaded(s) == o.batch
  {
    assert Batches(s.objects) == [o.batch];
    FlattenOne(o.batch);
  }

  // ---- How large an object gets -------------------------------------------------------------

  /** How many events a step puts into the buffer. */
  function Added(s: State, a: Action): nat {
    match a
    case Archive(events) => |events|
    case Finish(i, outcome) =>
      if i < |s.flights| && (outcome == Rejected || outcome == Doubtful) then |s.flights[i]| else 0
    case _ => 0
  }

  /** How many were put into it since it was last taken. */
  function SinceTake(states: seq<State>, actions: seq<Action>, n: nat): nat
    requires n <= |actions| && n <= |states|
  {
    if n == 0 || Takes(states[n - 1], actions[n - 1]) then 0
    else SinceTake(states, actions, n - 1) + Added(states[n - 1], actions[n - 1])
  }

  lemma {:induction false} BufferSize(cfg: Config, states: seq<State>, actions: seq<Action>, n: nat)
    requires IsRun(cfg, states, actions) && n < |states|
    ensures |states[n].pending| == SinceTake(states, actions, n)
  {
    if n > 0 {
      BufferSize(cfg, states, actions, n - 1);
    }
  }

  /** A batch in flight or in an object was the whole buffer at one flush. */
  ghost predicate Taken(states: seq<State>, actions: seq<Action>, n: nat, batch: seq<Event>)
    requires n <= |actions| && n <= |states|
  {
    exists k | 0 <= k < n :: Takes(states[k], actions[k]) && states[k].pending == batch
  }

  ghost predicate AllTaken(states: seq<State>, actions: seq<Action>, n: nat, s: State)
    requires n <= |actions| && n <= |states|
  {
    && (forall i | 0 <= i < |s.flights| :: Taken(states, actions, n, s.flights[i]))
    && (forall i | 0 <= i < |s.objects| :: Taken(states, actions, n, s.objects[i].batch))
  }

  lemma TakenLater(states: seq<State>, actions: seq<Action>, n: nat, s: State)
    requires n < |actions| && n < |states| && AllTaken(states, actions, n, s)
    ensures AllTaken(states, actions, n + 1, s)
  {
    forall batch | Taken(states, actions, n, batch) ensures Taken(states, actions, n + 1, batch) {
    }
    hide Taken;
  }

  lemma StepTaken(cfg: Config, states: seq<State>, actions: seq<Action>, n: nat)
    requires n < |actions| && n < |states| && Enabled(states[n], actions[n])
      && AllTaken(states, actions, n + 1, states[n])
    ensures AllTaken(states, actions, n + 1, Apply(cfg, states[n], actions[n]))
  {
    hide ArchiveKey;
    if Takes(states[n], actions[n]) {
      assert Taken(states, actions, n + 1, states[n].pending);
    }
    hide Taken;
  }

  lemma {:induction false} BatchesTaken(cfg: Config, states: seq<State>, actions: seq<Action>, n: nat)
    requires IsRun(cfg, states, actions) && n < |states|
    ensures AllTaken(states, actions, n, states[n])
  {
    if n > 0 {
      BatchesTaken(cfg, states, actions, n - 1);
      TakenLater(states, actions, n - 1, states[n - 1]);
      StepTaken(cfg, states, actions, n - 1);
    }
  }

  /** An object stays within the batch size exactly when at most that many events were archived or put
      back between the flush before and the one that took it. */
  lemma ObjectSizeExactly(cfg: Config, states: seq<State>, actions: seq<Action>, n: nat, i: nat) returns (k: nat)
    requires IsRun(cfg, states, actions) && n < |states| && i < |states[n].objects|
    ensures k < n && Takes(states[k], actions[k]) && states[k].pending == states[n].objects[i].batch
    ensures |states[n].objects[i].batch| <= cfg.batchSize <==> SinceTake(states, actions, k) <= cfg.batchSize
  {
    BatchesTaken(cfg, states, actions, n);
    assert Taken(states, actions, n, states[n].objects[i].batch);
    k :| 0 <= k < n && Takes(states[k], actions[k]) && states[k].pending == states[n].objects[i].batch;
    BufferSize(cfg, states, actions, k);
  }

  /** One large call is enough for a larger object. */
  lemma OversizedObject(cfg: Config, events: seq<Event>) returns (states: seq<State>, actions: seq<Action>)
    requires events != [] && |events| > cfg.batchSize
    ensures IsRun(cfg, states, actions)
    ensures var last := states[|states| - 1]; last.objects != [] && |last.objects[0].batch| > cfg.batchSize
  {
    hide ArchiveKey;
    var s1 := Apply(cfg, INITIAL, Archive(events));
    assert s1.pending == events;
    var s2 := Apply(cfg, s1, BeginFlush);
    assert s2.flights == [events];
    var s3 := Apply(cfg, s2, Finish(0, Stored));
    states, actions := [INITIAL, s1, s2, s3], [Archive(events), BeginFlush, Finish(0, Stored)];
  }

  // ---- Object keys --------------------------------------------------------------------------

  ghost predicate UniqueIDs(es: seq<Event>) {
    forall i, j | 0 <= i < |es| && 0 <= j < |es| && es[i].id == es[j].id :: i == j
  }

  lemma {:induction false} UniqueIsOnce(es: seq<Event>, e: Event)
    requires UniqueIDs(es)
    ensures multiset(es)[e] <= 1
  {
    if es != [] {
      var init, last := es[..|es| - 1], es[|es| - 1];
      assert es == init + [last];
      UniqueIsOnce(init, e);
      assert forall k | 0 <= k < |init| :: init[k].id == es[k].id != es[|es| - 1].id;
      assert e == last ==> e !in init;
    }
  }

  /** Two different objects contribute separately to what has been uploaded. */
  lemma {:induction false} TwoBatches(batches: seq<seq<Event>>, i: nat, j: nat)
    requires i < j < |batches|
    ensures multiset(batches[i]) + multiset(batches[j]) <= multiset(Flatten(batches))
  {
    FlattenRemove(batches, j);
    var rest := batches[..j] + batches[j + 1..];
    assert rest[i] == batches[i];
    FlattenRemove(rest, i);
  }

  /** What was put back had been archived. */
  ghost predicate CopiesKnown(s: State) {
    forall e | e in s.copies :: e in s.archived
  }

  lemma FlightKnown(s: State, i: nat, e: Event)
    requires Conserved(s) && CopiesKnown(s) && i < |s.flights| && e in s.flights[i]
    ensures e in s.archived
  {
    FlattenRemove(s.flights, i);
    assert multiset(s.flights[i])[e] > 0;
    assert multiset(Flatten(s.flights))[e] > 0;
    hide Flatten;
    hide Uploaded;
    assert Kept(s)[e] > 0;
    hide Kept;
    assert (Kept(s) + multiset(s.dropped))[e] > 0;
    assert (multiset(s.archived) + multiset(s.copies))[e] > 0;
    assert multiset(s.copies)[e] > 0 ==> e in s.copies;
  }

  lemma StepCopies(cfg: Config, s: State, a: Action)
    requires Enabled(s, a) && Conserved(s) && CopiesKnown(s)
    ensures CopiesKnown(Apply(cfg, s, a))
  {
    if a.Finish? {
      forall e | e in s.flights[a.flight] ensures e in s.archived {
        FlightKnown(s, a.flight, e);
      }
    }
    hide Conserved;
    hide ArchiveKey;
  }

  lemma {:induction false} CopiesArchived(cfg: Config, states: seq<State>, actions: seq<Action>, n: nat)
    requires IsRun(cfg, states, actions) && n < |states|
    ensures CopiesKnown(states[n])
  {
    hide Apply;
    hide Enabled;
    hide Conserved;
    hide Tidy;
    hide CopiesKnown;
    if n == 0 {
      NothingCopied();
    } else {
      CopiesArchived(cfg, states, actions, n - 1);
      NothingLost(cfg, states, actions, n - 1);
      StepCopies(cfg, states[n - 1], actions[n - 1]);
    }
  }

  lemma NothingCopied()
    ensures CopiesKnown(INITIAL)
  {
  }

  /** The ids and the hour that a key spells out. */
  function KeyParts(cfg: Config, batch: seq<Event>): (nat, nat, string)
    requires batch != []
  {
    (batch[0].id, batch[|batch| - 1].id, cfg.hour(batch[0].createdAt))
  }

  /** Two keys are equal exactly when their batches agree in the first and the last id and in the hour. */
  lemma SameKeyExactly(cfg: Config, b1: seq<Event>, b2: seq<Event>)
    requires b1 != [] && b2 != []
    ensures ArchiveKey(cfg, b1) == ArchiveKey(cfg, b2) <==> KeyParts(cfg, b1) == KeyParts(cfg, b2)
  {
    if ArchiveKey(cfg, b1) == ArchiveKey(cfg, b2) {
      var (p1, p2) := (KeyParts(cfg, b1), KeyParts(cfg, b2));
      var (d1, d2) := (Decimal(p1.0), Decimal(p2.0));
      var (l1, l2) := (Decimal(p1.1), Decimal(p2.1));
      hide Decimal;
      NamePart(d1, l1);
      NamePart(d2, l2);
      CutLast(cfg.prefix + p1.2, d1 + "-" + (l1 + ".jsonl"), cfg.prefix + p2.2, d2 + "-" + (l2 + ".jsonl"), '/');
      CutFirst(d1, l1 + ".jsonl", d2, l2 + ".jsonl", '-');
      SameFront(l1, l2, ".jsonl");
      SameBack(cfg.prefix, p1.2, p2.2);
      DecimalInjective(p1.0, p2.0);
      DecimalInjective(p1.1, p2.1);
    }
  }

  lemma NamePart(d: string, l: string)
    requires '/' !in d && '/' !in l
    ensures '/' !in d + "-" + (l + ".jsonl")
  {
  }

  lemma SameFront(a: string, b: string, end: string)
    requires a + end == b + end
    ensures a == b
  {
    assert a == (a + end)[..|a|] && b == (b + end)[..|b|];
  }

  lemma SameBack(front: string, a: string, b: string)
    requires front + a == front + b
    ensures a == b
  {
    assert a == (front + a)[|front|..] && b == (front + b)[|front|..];
  }

  /** With unique event ids two stored objects share a key only if an upload stored the first event of
      both and reported an error; so without such an upload no object overwrites another. */
  lemma SameKeyMeansCopied(cfg: Config, states: seq<State>, actions: seq<Action>, n: nat, i: nat, j: nat)
    requires IsRun(cfg, states, actions) && n < |states| && UniqueIDs(states[n].archived)
    requires i < j < |states[n].objects| && states[n].objects[i].key == states[n].objects[j].key
    ensures var a, b := states[n].objects[i].batch, states[n].objects[j].batch;
      a != [] && b != [] && a[0] == b[0] && a[0] in states[n].copies
  {
    NothingLost(cfg, states, actions, n);
    CopiesArchived(cfg, states, actions, n);
    var s := states[n];
    var a, b := s.objects[i].batch, s.objects[j].batch;
    SameKeyExactly(cfg, a, b);
    hide ArchiveKey;
    TwoBatches(Batches(s.objects), i, j);
    InPlace(s, a);
    InPlace(s, b);
    SameEvent(s.archived, a[0], b[0]);
    CountedTwice(a, b, multiset(s.archived) + multiset(s.copies), a[0]);
    UniqueIsOnce(s.archived, a[0]);
  }

  lemma InPlace(s: State, batch: seq<Event>)
    requires Conserved(s) && multiset(batch) <= multiset(Uploaded(s)) && batch != [] && CopiesKnown(s)
    ensures batch[0] in multiset(s.archived)
  {
    hide Uploaded;
    var e := batch[0];
    assert multiset(batch)[e] > 0;
    assert multiset(Uploaded(s))[e] > 0;
    assert Kept(s)[e] > 0;
    hide Kept;
    assert (Kept(s) + multiset(s.dropped))[e] > 0;
    assert (multiset(s.archived) + multiset(s.copies))[e] > 0;
    assert multiset(s.copies)[e] > 0 ==> e in s.copies;
  }

  lemma SameEvent(es: seq<Event>, x: Event, y: Event)
    requires UniqueIDs(es) && x in multiset(es) && y in multiset(es) && x.id == y.id
    ensures x == y
  {
    var p, q :| 0 <= p < |es| && es[p] == x && 0 <= q < |es| && es[q] == y;
    assert p == q;
  }

  lemma CountedTwice(a: seq<Event>, b: seq<Event>, m: multiset<Event>, e: Event)
    requires e in a && e in b && multiset(a) + multiset(b) <= m
    ensures m[e] >= 2
  {
    assert multiset(a)[e] >= 1 && multiset(b)[e] >= 1;
  }

  // ---- The timer ----------------------------------------------------------------------------

  /** A step that can leave events waiting without a timer: an upload puts its batch back while no timer
      is set, or the timer fires on an empty buffer. */
  predicate Lapse(s: State, a: Action) {
    || (a.Finish? && (a.outcome == Rejected || a.outcome == Doubtful) && s.timer == Off)
    || (a.TimerFires? && s.pending == [])
  }

  predicate Arms(s: State, a: Action) { a.Schedule? && s.timer == Off }

  /** Such a step since the timer was last armed. */
  ghost predicate Lapsed(states: seq<State>, actions: seq<Action>, n: nat)
    requires n <= |actions| && n <= |states|
  {
    exists k | 0 <= k < n :: Lapse(states[k], actions[k]) && forall m | k < m < n :: !Arms(states[m], actions[m])
  }

  lemma LapsedStep(states: seq<State>, actions: seq<Action>, n: nat)
    requires n < |actions| && n < |states|
    ensures Lapsed(states, actions, n + 1)
       <==> Lapse(states[n], actions[n]) || (Lapsed(states, actions, n) && !Arms(states[n], actions[n]))
  {
    hide Lapse;
    hide Arms;
    if Lapsed(states, actions, n) && !Arms(states[n], actions[n]) {
      var k :| 0 <= k < n && Lapse(states[k], actions[k]) && forall m | k < m < n :: !Arms(states[m], actions[m]);
      assert forall m | k < m < n + 1 :: !Arms(states[m], actions[m]);
    }
    if Lapsed(states, actions, n + 1) && !Lapse(states[n], actions[n]) {
      var k :| 0 <= k < n + 1 && Lapse(states[k], actions[k])
        && forall m | k < m < n + 1 :: !Arms(states[m], actions[m]);
      assert k < n && !Arms(states[n], actions[n]);
    }
  }

  /** What holds of the timer, depending on whether there has been a lapse. */
  predicate TimerOk(s: State, lapsed: bool) {
    && (lapsed ==> s.timer != Armed)
    && (s.timer == Fired && !lapsed ==> s.toFlush > 0 && s.pending != [])
    && (s.timer == Off && s.pending != [] && !lapsed ==> s.toSchedule > 0 || s.toFlush > 0)
  }

  lemma StepKeepsTimer(cfg: Config, s: State, a: Action, lapsed: bool)
    requires Enabled(s, a) && TimerOk(s, lapsed)
    ensures TimerOk(Apply(cfg, s, a), Lapse(s, a) || (lapsed && !Arms(s, a)))
  {
    hide ArchiveKey;
  }

  lemma {:induction false} RunKeepsTimer(cfg: Config, states: seq<State>, actions: seq<Action>, n: nat)
    requires IsRun(cfg, states, actions) && n < |states|
    ensures TimerOk(states[n], Lapsed(states, actions, n))
  {
    if n > 0 {
      RunKeepsTimer(cfg, states, actions, n - 1);
      LapsedStep(states, actions, n - 1);
      StepKeepsTimer(cfg, states[n - 1], actions[n - 1], Lapsed(states, actions, n - 1));
    }
  }

  /** No call is between appending and setting the timer, and none is about to flush. */
  predicate Quiet(s: State) { s.toSchedule == 0 && s.toFlush == 0 }

  /** When no call is under way, waiting events have a live timer exactly when, since the timer was last
      armed, no upload put its batch back with no timer set and no timer fired on an empty buffer. */
  lemma TimerLiveExactly(cfg: Config, states: seq<State>, actions: seq<Action>, n: nat)
    requires IsRun(cfg, states, actions) && n < |states| && Quiet(states[n]) && states[n].pending != []
    ensures states[n].timer == Armed <==> !Lapsed(states, actions, n)
  {
    RunKeepsTimer(cfg, states, actions, n);
  }

  /** One stall: a timer that fires on an empty buffer stays set, so a later event arms no new one. */
  lemma EmptyFiringStalls(cfg: Config, a: Event, b: Event) returns (states: seq<State>, actions: seq<Action>)
    requires cfg.batchSize > 1
    ensures IsRun(cfg, states, actions)
    ensures var last := states[|states| - 1];
      Quiet(last) && last.pending == [b] && last.flights == [] && last.timer == Fired
  {
    hide IsRun;
    hide ArchiveKey;
    var s: State;
    states, actions := FirstState(cfg);
    states, actions, s := Taking(cfg, states, actions, a);
    assert s.flights == [[a]];
    states, actions, s := Then(cfg, states, actions, Schedule);
    states, actions, s := Then(cfg, states, actions, Finish(0, Stored));
    assert s.flights == [] && s.timer == Armed;
    states, actions, s := Then(cfg, states, actions, TimerFires);
    states, actions, s := Then(cfg, states, actions, BeginFlush);
    states, actions, s := Then(cfg, states, actions, Archive([b]));
    assert s.pending == [b];
    states, actions, s := Then(cfg, states, actions, Schedule);
  }

  /** Another: a failed upload puts its batch back and arms no timer. */
  lemma RejectionStalls(cfg: Config, a: Event) returns (states: seq<State>, actions: seq<Action>)
    requires cfg.batchSize > 1
    ensures IsRun(cfg, states, actions)
    ensures var last := states[|states| - 1];
      Quiet(last) && last.pending == [a] && last.flights == [] && last.timer == Off
  {
    hide IsRun;
    var s: State;
    states, actions := FirstState(cfg);
    states, actions, s := Then(cfg, states, actions, Archive([a]));
    assert s.pending == [a];
    states, actions, s := Then(cfg, states, actions, Schedule);
    states, actions, s := Then(cfg, states, actions, TimerFires);
    states, actions, s := Then(cfg, states, actions, BeginFlush);
    assert s.flights == [[a]];
    states, actions, s := Then(cfg, states, actions, Finish(0, Rejected));
    assert s.pending == [a];
  }

  // ---- The archiver object ------------------------------------------------------------------

  class S3LedgerArchiver {
    const cfg: Config
    var pending: seq<Event>
    var flushTimer: Timer
    var bucket: seq<Object>
    ghost var toSchedule: nat
    ghost var toFlush: nat
    ghost var flights: seq<seq<Event>>
    ghost var archived: seq<Event>
    ghost var dropped: seq<Event>
    ghost var copies: seq<Event>

    ghost function View(): State
      reads this
    {
      State(pending, flushTimer, toSchedule, toFlush, flights, bucket, archived, dropped, copies)
    }

    /** An empty prefix becomes the default one, and any prefix ends with a slash. */
    constructor (prefix: string, hour: int64 -> string, batchSize: int)
      ensures View() == INITIAL && cfg.hour == hour
      ensures cfg.batchSize == if batchSize <= 0 then 100 else batchSize
      ensures cfg.prefix == if prefix == "" then "approval/"
                            else if prefix[|prefix| - 1] == '/' then prefix else prefix + "/"
    {
      var dir := if prefix == "" then "approval/" else prefix;
      if dir[|dir| - 1] != '/' {
        dir := dir + "/";
      }
      cfg := Config(dir, hour, if batchSize <= 0 then 100 else batchSize);
      pending, flushTimer, bucket := [], Off, [];
      toSchedule, toFlush, flights, archived, dropped, copies := 0, 0, [], [], [], [];
    }

    /** How a whole flush ends that finds these events waiting and this timer and bucket: an object with
        all of them, in order, under a key of the first event's hour and the first and last ids, unless
        the upload stored none; and the buffer empty, unless the upload returned an error. */
    ghost predicate FlushEnds(waiting: seq<Event>, timer: Timer, before: seq<Object>, upload: Outcome)
      reads this
    {
      if waiting == [] then pending == [] && flushTimer == timer && bucket == before
      else
        var first, last := waiting[0], waiting[|waiting| - 1];
        var key := cfg.prefix + cfg.hour(first.createdAt) + "/" + Decimal(first.id) + "-" + Decimal(last.id) + ".jsonl";
        && flushTimer == Off
        && pending == (if upload == Rejected || upload == Doubtful then waiting else [])
        && bucket == (if upload == Stored || upload == Doubtful then before + [Object(key, waiting)] else before)
    }

    /** Enqueues events; when the buffer reaches the batch size it is flushed at once, otherwise a
        timer is armed. The contract is for a call that no other one interleaves with. */
    method ArchiveEvents(events: seq<Event>, upload: Outcome) returns (ok: bool)
      modifies this
      ensures events == [] ==> ok && View() == old(View())
      ensures events != [] && |old(pending)| + |events| < cfg.batchSize ==>
        && ok && View() == Apply(cfg, Apply(cfg, old(View()), Archive(events)), Schedule)
        && pending == old(pending) + events && bucket == old(bucket)
        && flushTimer == (if old(flushTimer) == Off then Armed else old(flushTimer))
      ensures events != [] && |old(pending)| + |events| >= cfg.batchSize ==>
        && ok == (upload == Stored) && View() == Flushed(cfg, Apply(cfg, old(View()), Archive(events)), upload)
        && FlushEnds(old(pending) + events, old(flushTimer), old(bucket), upload)
    {
      if |events| == 0 {
        return true;
      }
      pending := pending + events;
      archived := archived + events;
      var count := |pending|;
      if count >= cfg.batchSize {
        toFlush := toFlush + 1;
        ok := RunFlush(upload);
        return;
      }
      toSchedule := toSchedule + 1;
      ScheduleFlush();
      return true;
    }

    method ScheduleFlush()
      requires toSchedule > 0
      modifies this
      ensures View() == Apply(cfg, old(View()), Schedule)
    {
      toSchedule := toSchedule - 1;
      if flushTimer != Off {
        return;
      }
      flushTimer := Armed;
    }

    /** The locked first half of a flush: takes the whole buffer. */
    method TakeBatch() returns (batch: seq<Event>)
      requires toFlush > 0
      modifies this
      ensures batch == old(pending)
      ensures View() == Apply(cfg, old(View()), BeginFlush)
    {
      toFlush := toFlush - 1;
      batch := pending;
      if |pending| == 0 {
        return;
      }
      pending := [];
      flights := flights + [batch];
      if flushTimer != Off {
        flushTimer := Off;
      }
    }

    /** The second half, entered with the outcome of rendering and uploading the batch. */
    method FinishBatch(batch: seq<Event>, ghost flight: nat, upload: Outcome)
      requires flight < |flights| && flights[flight] == batch
      modifies this
      ensures View() == Apply(cfg, old(View()), Finish(flight, upload))
    {
      flights := flights[..flight] + flights[flight + 1..];
      if upload == Unencodable {
        dropped := dropped + batch;
        return;
      }
      var key := ArchiveKey(cfg, batch);
      if upload == Stored || upload == Doubtful {
        bucket := bucket + [Object(key, batch)];
      }
      if upload != Stored {
        pending := batch + pending;
        copies := if upload == Doubtful then copies + batch else copies;
      }
    }

    method RunFlush(upload: Outcome) returns (ok: bool)
      requires toFlush > 0
      modifies this
      ensures View() == Flushed(cfg, old(View()), upload)
      ensures ok <==> old(pending) == [] || upload == Stored
      ensures FlushEnds(old(pending), old(flushTimer), old(bucket), upload)
    {
      var batch := TakeBatch();
      if |batch| == 0 {
        return true;
      }
      KeyText(cfg, batch);
      FinishBatch(batch, |flights| - 1, upload);
      ok := upload == Stored;
    }

    /** A flush asked for from outside. */
    method Flush(upload: Outcome) returns (ok: bool)
      modifies this
      ensures View() == Flushed(cfg, Apply(cfg, old(View()), CallFlush), upload)
      ensures ok <==> old(pending) == [] || upload == Stored
      ensures FlushEnds(old(pending), old(flushTimer), old(bucket), upload)
    {
      toFlush := toFlush + 1;
      ok := RunFlush(upload);
    }
  }

  /** A whole flush that no other flush overlaps. */
  function Flushed(cfg: Config, s: State, upload: Outcome): State
    requires s.toFlush > 0
  {
    var taken := Apply(cfg, s, BeginFlush);
    if s.pending == [] then taken else Apply(cfg, taken, Finish(|s.flights|, upload))
  }

  /** What a caller can check: on its own, a call that fills the buffer makes an object within the batch
      size exactly when what waits and what it hands over do not exceed it. */
  lemma CallWithinBatchSize(cfg: Config, s: State, events: seq<Event>)
    requires events != [] && |s.pending| + |events| >= cfg.batchSize && s.toFlush == 0
    ensures var s' := Flushed(cfg, Apply(cfg, s, Archive(events)), Stored);
      && s'.objects == s.objects + [Object(ArchiveKey(cfg, s.pending + events), s.pending + events)]
      && (|s'.objects[|s.objects|].batch| <= cfg.batchSize <==> |s.pending| + |events| <= cfg.batchSize)
  {
    hide ArchiveKey;
  }
}
