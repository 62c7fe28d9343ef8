/** What holds over every interleaving of toast actions and timers. */
module ToastRuns {
  import opened Options
  import opened Sequences
  import opened ToastModel

  // ---------------------------------------------------------------- lists

  lemma {:induction false} WithoutShrinks(toasts: seq<Toast>, id: Id)
    ensures |Without(toasts, id)| <= |toasts|
    ensures forall t :: t in Without(toasts, id) <==> t in toasts && t.id != id
  {
    if toasts != [] {
      var n := |toasts| - 1;
      WithoutShrinks(toasts[..n], id);
      assert toasts == toasts[..n] + [toasts[n]];
    }
  }

  /** Main result: the list never exceeds its limit. */
  lemma {:induction false} NeverOverLimit(settings: Settings, steps: seq<Step>)
    requires settings.modulus > 0
    ensures |Run(settings, steps).toasts| <= settings.limit
  {
    if steps != [] {
      var before, step := Run(settings, steps[..|steps| - 1]), steps[|steps| - 1];
      NeverOverLimit(settings, steps[..|steps| - 1]);
      match step
      case Remove(Some(id)) => WithoutShrinks(before.toasts, id);
      case Fire(id) => WithoutShrinks(before.toasts, id);
      case _ =>
    }
  }

  // ---------------------------------------------------------------- one callback for each key

  /** Every key of the map has exactly one callback, and no other id has any. */
  ghost predicate OneEach(timers: Timers) {
    timers.callbacks == multiset(timers.known)
  }

  lemma AddKeepsOneEach(timers: Timers, id: Id)
    requires OneEach(timers)
    ensures OneEach(timers.Add(id)) && timers.Add(id).known == timers.known + {id}
  {
    if id in timers.known {
      assert timers.known + {id} == timers.known;
    }
  }

  lemma LastId(toasts: seq<Toast>)
    requires toasts != []
    ensures Ids(toasts) == Ids(toasts[..|toasts| - 1]) + {toasts[|toasts| - 1].id}
  {
  }

  lemma {:induction false} AddAllKeepsOneEach(timers: Timers, toasts: seq<Toast>)
    requires OneEach(timers)
    ensures OneEach(AddAll(timers, toasts))
    ensures AddAll(timers, toasts).known == timers.known + Ids(toasts)
  {
    if toasts != [] {
      var n := |toasts| - 1;
      AddAllKeepsOneEach(timers, toasts[..n]);
      AddKeepsOneEach(AddAll(timers, toasts[..n]), toasts[n].id);
      LastId(toasts);
    }
  }

  lemma StepKeepsOneEach(settings: Settings, s: State, step: Step)
    requires settings.modulus > 0 && OneEach(s.timers)
    ensures OneEach(Next(settings, s, step).timers)
  {
    match step
    case Dismiss(None) => AddAllKeepsOneEach(s.timers, s.toasts);
    case Dismiss(Some(id)) => AddKeepsOneEach(s.timers, id);
    case _ =>
  }

  /** Main result: over every run no removal is ever scheduled twice, and none is lost. */
  lemma {:induction false} OneCallbackEach(settings: Settings, steps: seq<Step>)
    requires settings.modulus > 0
    ensures OneEach(Run(settings, steps).timers)
  {
    if steps != [] {
      OneCallbackEach(settings, steps[..|steps| - 1]);
      StepKeepsOneEach(settings, Run(settings, steps[..|steps| - 1]), steps[|steps| - 1]);
    }
  }

  // ---------------------------------------------------------------- closed toasts and timers

  /** Every closed toast has exactly one pending callback, and every open toast none. */
  ghost predicate Agrees(s: State) {
    forall t :: t in s.toasts ==> s.timers.callbacks[t.id] == if t.open then 0 else 1
  }

  /**
   What a step must meet for the agreement to survive it: the id that a new toast gets has no timer,
   and an update of `open` says what the timer of its toast says. Every other step is free.
   */
  predicate Guard(settings: Settings, s: State, step: Step)
    requires settings.modulus > 0
  {
    match step
    case Show(_) => settings.limit == 0 || (s.count + 1) % settings.modulus !in s.timers.known
    case Update(id, _, Some(open)) => id in Ids(s.toasts) ==> (open <==> id !in s.timers.known)
    case _ => true
  }

  lemma ShowAgreesIff(settings: Settings, s: State, text: string)
    requires settings.modulus > 0 && OneEach(s.timers) && Agrees(s)
    ensures Agrees(Next(settings, s, Show(text))) <==> Guard(settings, s, Show(text))
  {
    var next := Next(settings, s, Show(text));
    var newest := Toast(next.count, text, true);
    assert forall t :: t in next.toasts ==> t == newest || t in s.toasts;
    if settings.limit > 0 {
      assert next.toasts[0] == newest && newest in next.toasts;
    }
  }

  lemma UpdateAgreesIff(settings: Settings, s: State, id: Id, text: Option<string>, open: Option<bool>)
    requires settings.modulus > 0 && OneEach(s.timers) && Agrees(s)
    ensures Agrees(Next(settings, s, Update(id, text, open))) <==> Guard(settings, s, Update(id, text, open))
  {
    var next := Next(settings, s, Update(id, text, open));
    forall t | t in next.toasts
      ensures exists u :: u in s.toasts && t == Patched(u, id, text, open)
    {
      var i :| 0 <= i < |s.toasts| && next.toasts[i] == t;
      assert s.toasts[i] in s.toasts;
    }
    if id in Ids(s.toasts) {
      var i :| 0 <= i < |s.toasts| && s.toasts[i].id == id;
      assert next.toasts[i] in next.toasts && s.toasts[i] in s.toasts;
    }
  }

  lemma DismissAgrees(settings: Settings, s: State, target: Option<Id>)
    requires settings.modulus > 0 && OneEach(s.timers) && Agrees(s)
    ensures Agrees(Next(settings, s, Dismiss(target)))
  {
    AddAllKeepsOneEach(s.timers, s.toasts);
    var next := Next(settings, s, Dismiss(target));
    forall t | t in next.toasts
      ensures exists u :: u in s.toasts && t == Closed(u, target) && u.id in Ids(s.toasts)
    {
      var i :| 0 <= i < |s.toasts| && next.toasts[i] == t;
      assert s.toasts[i] in s.toasts;
    }
  }

  /** A step keeps the agreement exactly when it meets its guard. */
  lemma StepAgreesIff(settings: Settings, s: State, step: Step)
    requires settings.modulus > 0 && OneEach(s.timers) && Agrees(s)
    ensures Agrees(Next(settings, s, step)) <==> Guard(settings, s, step)
  {
    match step
    case Show(text) => ShowAgreesIff(settings, s, text);
    case Update(id, text, open) => UpdateAgreesIff(settings, s, id, text, open);
    case Dismiss(target) => DismissAgrees(settings, s, target);
    case Remove(Some(id)) => WithoutShrinks(s.toasts, id);
    case Remove(None) =>
    case Fire(id) => WithoutShrinks(s.toasts, id);
  }

  /** Every step of the run meets its guard in the state it is taken in. */
  predicate Guarded(settings: Settings, steps: seq<Step>)
    requires settings.modulus > 0
  {
    steps == [] ||
    (&& Guarded(settings, steps[..|steps| - 1])
     && Guard(settings, Run(settings, steps[..|steps| - 1]), steps[|steps| - 1]))
  }

  /** The agreement holds before, during and after the run. */
  ghost predicate AlwaysAgrees(settings: Settings, steps: seq<Step>)
    requires settings.modulus > 0
  {
    Agrees(Run(settings, steps)) && (steps != [] ==> AlwaysAgrees(settings, steps[..|steps| - 1]))
  }

  /** Main result: closed toasts are exactly those with a pending timer throughout a run, iff the run is guarded. */
  lemma {:induction false} RunAgreesIff(settings: Settings, steps: seq<Step>)
    requires settings.modulus > 0
    ensures AlwaysAgrees(settings, steps) <==> Guarded(settings, steps)
    ensures Guarded(settings, steps) ==> Agrees(Run(settings, steps))
  {
    if steps != [] {
      var earlier, step := steps[..|steps| - 1], steps[|steps| - 1];
      RunAgreesIff(settings, earlier);
      OneCallbackEach(settings, earlier);
      if Guarded(settings, earlier) {
        StepAgreesIff(settings, Run(settings, earlier), step);
      }
    }
  }

  /** Hence a timer only ever removes a toast that was dismissed, and leaves every open one in place. */
  lemma TimerRemovesOnlyClosed(settings: Settings, steps: seq<Step>, id: Id, t: Toast)
    requires settings.modulus > 0 && Guarded(settings, steps)
    requires t in Run(settings, steps).toasts
    ensures t in Next(settings, Run(settings, steps), Fire(id)).toasts <==>
            t.open || t.id != id
  {
    RunAgreesIff(settings, steps);
    WithoutShrinks(Run(settings, steps).toasts, id);
  }

  // ---------------------------------------------------------------- ids

  function Shown(steps: seq<Step>): nat {
    if steps == [] then 0 else Shown(steps[..|steps| - 1]) + if steps[|steps| - 1].Show? then 1 else 0
  }

  /** The counter after `n` toasts, at most as many as there are ids. */
  function Wrapped(n: nat, modulus: nat): nat {
    if n == modulus then 0 else n
  }

  lemma NextCount(count: nat, modulus: nat)
    requires count < modulus
    ensures (count + 1) % modulus == Wrapped(count + 1, modulus)
  {
  }

  lemma StepCounts(settings: Settings, s: State, step: Step)
    requires s.count < settings.modulus
    ensures Next(settings, s, step).count == if step.Show? then Wrapped(s.count + 1, settings.modulus) else s.count
  {
    NextCount(s.count, settings.modulus);
  }

  /** The counter counts the shown toasts and starts again at its modulus. */
  lemma {:induction false} CountIs(settings: Settings, s: State, steps: seq<Step>)
    requires s.count < settings.modulus && Shown(steps) <= settings.modulus
    ensures var n := s.count + Shown(steps);
            RunFrom(settings, s, steps).count == if n < settings.modulus then n else n - settings.modulus
  {
    if steps != [] {
      var earlier := steps[..|steps| - 1];
      CountIs(settings, s, earlier);
      StepCounts(settings, RunFrom(settings, s, earlier), steps[|steps| - 1]);
    }
  }

  /** Main result: the id of the last toast comes back when as many as the modulus have been shown, and not before. */
  lemma IdsRepeatIff(settings: Settings, s: State, steps: seq<Step>)
    requires s.count < settings.modulus && 0 < Shown(steps) <= settings.modulus
    ensures RunFrom(settings, s, steps).count == s.count <==> Shown(steps) == settings.modulus
  {
    CountIs(settings, s, steps);
  }

  /** The list is ordered by id, the newest toast first. */
  predicate Descending(toasts: seq<Toast>) {
    forall i, j :: 0 <= i < j < |toasts| ==> toasts[i].id > toasts[j].id
  }

  lemma {:induction false} WithoutDescends(toasts: seq<Toast>, id: Id)
    requires Descending(toasts)
    ensures Descending(Without(toasts, id))
  {
    if toasts != [] {
      var n := |toasts| - 1;
      WithoutDescends(toasts[..n], id);
      WithoutShrinks(toasts[..n], id);
      var rest := Without(toasts[..n], id);
      forall i | 0 <= i < |rest|
        ensures rest[i].id > toasts[n].id
      {
        assert rest[i] in rest;
      }
    }
  }

  lemma SameIds(a: seq<Toast>, b: seq<Toast>)
    requires |a| == |b| && forall i :: 0 <= i < |a| ==> a[i].id == b[i].id
    ensures Descending(a) == Descending(b)
    ensures forall t :: t in b ==> exists u :: u in a && u.id == t.id
  {
    forall t | t in b
      ensures exists u :: u in a && u.id == t.id
    {
      var i :| 0 <= i < |b| && b[i] == t;
      assert a[i] in a;
    }
  }

  /** The toasts are in order, newest first, and the counter has not passed any of them. */
  predicate Ordered(s: State) {
    Descending(s.toasts) && forall t :: t in s.toasts ==> 0 < t.id <= s.count
  }

  lemma ShowIsOrdered(settings: Settings, s: State, text: string)
    requires s.count + 1 < settings.modulus && Ordered(s)
    ensures Ordered(Next(settings, s, Show(text))) && Next(settings, s, Show(text)).count == s.count + 1
  {
    NextCount(s.count, settings.modulus);
    var next := Next(settings, s, Show(text));
    assert forall i :: 0 < i < |next.toasts| ==> next.toasts[i] == s.toasts[i - 1] && next.toasts[i] in s.toasts;
  }

  lemma OtherStepIsOrdered(settings: Settings, s: State, step: Step)
    requires settings.modulus > 0 && Ordered(s) && !step.Show?
    ensures Ordered(Next(settings, s, step)) && Next(settings, s, step).count == s.count
  {
    match step
    case Remove(Some(id)) => WithoutDescends(s.toasts, id); WithoutShrinks(s.toasts, id);
    case Fire(id) => WithoutDescends(s.toasts, id); WithoutShrinks(s.toasts, id);
    case Update(_, _, _) | Dismiss(_) => SameIds(s.toasts, Next(settings, s, step).toasts);
    case Remove(None) =>
  }

  /** Main result: until the counter wraps, the toasts on display are in the order they were shown, newest first. */
  lemma {:induction false} NewestFirst(settings: Settings, steps: seq<Step>)
    requires Shown(steps) < settings.modulus
    ensures Ordered(Run(settings, steps)) && Run(settings, steps).count == Shown(steps)
  {
    if steps != [] {
      var before, step := Run(settings, steps[..|steps| - 1]), steps[|steps| - 1];
      NewestFirst(settings, steps[..|steps| - 1]);
      if step.Show? {
        ShowIsOrdered(settings, before, step.text);
      } else {
        OtherStepIsOrdered(settings, before, step);
      }
    }
  }

  /** Two updates of a toast are one, in which the later values win; updates of different toasts commute. */
  lemma UpdatesMerge(settings: Settings, s: State, a: Id, b: Id, text: Option<string>, open: Option<bool>,
                     newText: Option<string>, newOpen: Option<bool>)
    requires settings.modulus > 0
    ensures var both := Next(settings, Next(settings, s, Update(a, text, open)), Update(b, newText, newOpen));
            if a == b
            then both == Next(settings, s, Update(a, if newText.Some? then newText else text,
                                                     if newOpen.Some? then newOpen else open))
            else both == Next(settings, Next(settings, s, Update(b, newText, newOpen)), Update(a, text, open))
  {
  }

  // ---------------------------------------------------------------- well-behaved runs

  /** `id` is one of the first `n` ids that the counter gives out, where `n` is at most the modulus. */
  predicate Issued(n: nat, modulus: nat, id: Id) {
    id < modulus && if id == 0 then n == modulus else id <= n
  }

  /**
   The run uses the store as its hook offers it: updates leave `open` alone, only toasts that were
   shown are dismissed, and no more toasts are shown than there are ids.
   */
  predicate WellBehaved(settings: Settings, steps: seq<Step>) {
    steps == [] ||
    (&& WellBehaved(settings, steps[..|steps| - 1])
     && Shown(steps) <= settings.modulus
     && match steps[|steps| - 1]
        case Update(_, _, open) => open.None?
        case Dismiss(Some(id)) => Issued(Shown(steps), settings.modulus, id)
        case _ => true)
  }

  /** Only issued ids are around. */
  ghost predicate AllIssued(modulus: nat, n: nat, s: State) {
    && (forall id :: id in Ids(s.toasts) ==> Issued(n, modulus, id))
    && (forall id :: id in s.timers.known ==> Issued(n, modulus, id))
    && s.count == Wrapped(n, modulus)
  }

  lemma WithoutIds(toasts: seq<Toast>, id: Id)
    ensures Ids(Without(toasts, id)) <= Ids(toasts)
  {
    WithoutShrinks(toasts, id);
    var kept := Without(toasts, id);
    forall i | 0 <= i < |kept|
      ensures kept[i].id in Ids(toasts)
    {
      assert kept[i] in kept;
      var k :| 0 <= k < |toasts| && toasts[k] == kept[i];
    }
  }

  lemma SameIdSet(a: seq<Toast>, b: seq<Toast>)
    requires |a| == |b| && forall i :: 0 <= i < |a| ==> a[i].id == b[i].id
    ensures Ids(a) == Ids(b)
  {
    assert forall i :: 0 <= i < |a| ==> a[i].id in Ids(b) && b[i].id in Ids(a);
  }

  lemma StepIssues(settings: Settings, n: nat, s: State, step: Step)
    requires 0 < settings.modulus && OneEach(s.timers) && AllIssued(settings.modulus, n, s)
    requires match step
             case Show(_) => n + 1 <= settings.modulus
             case Dismiss(Some(id)) => n <= settings.modulus && Issued(n, settings.modulus, id)
             case _ => n <= settings.modulus
    ensures AllIssued(settings.modulus, if step.Show? then n + 1 else n, Next(settings, s, step))
  {
    var next := Next(settings, s, step);
    match step
    case Show(_) =>
      NextCount(s.count, settings.modulus);
      assert Ids(next.toasts) <= Ids(s.toasts) + {next.count};
    case Update(_, _, _) => SameIdSet(s.toasts, next.toasts);
    case Dismiss(_) =>
      AddAllKeepsOneEach(s.timers, s.toasts);
      SameIdSet(s.toasts, next.toasts);
    case Remove(Some(id)) => WithoutIds(s.toasts, id);
    case Remove(None) => assert Ids(next.toasts) == {};
    case Fire(id) => WithoutIds(s.toasts, id);
  }

  /** Main result: a well-behaved run is guarded, so its closed toasts are exactly those with a pending timer. */
  lemma {:induction false} WellBehavedIsGuarded(settings: Settings, steps: seq<Step>)
    requires settings.modulus > 0 && WellBehaved(settings, steps)
    ensures Guarded(settings, steps)
    ensures AllIssued(settings.modulus, Shown(steps), Run(settings, steps))
  {
    if steps == [] {
      assert Ids([]) == {};
    } else {
      var earlier, step := steps[..|steps| - 1], steps[|steps| - 1];
      WellBehavedIsGuarded(settings, earlier);
      OneCallbackEach(settings, earlier);
      StepIssues(settings, Shown(earlier), Run(settings, earlier), step);
      if step.Show? {
        NextCount(Run(settings, earlier).count, settings.modulus);
      }
    }
  }

  // ---------------------------------------------------------------- all timers fire

  function OpenOnes(toasts: seq<Toast>): seq<Toast> {
    if toasts == [] then []
    else OpenOnes(toasts[..|toasts| - 1]) + if toasts[|toasts| - 1].open then [toasts[|toasts| - 1]] else []
  }

  /** What is left of a list when the toasts with the given ids are removed. */
  ghost function WithoutAll(toasts: seq<Toast>, ids: set<Id>): seq<Toast> {
    if toasts == [] then []
    else WithoutAll(toasts[..|toasts| - 1], ids) + if toasts[|toasts| - 1].id in ids then [] else [toasts[|toasts| - 1]]
  }

  lemma {:induction false} RemovalsAccumulate(toasts: seq<Toast>, ids: set<Id>, id: Id)
    ensures Without(WithoutAll(toasts, ids), id) == WithoutAll(toasts, ids + {id})
  {
    if toasts != [] {
      var n := |toasts| - 1;
      RemovalsAccumulate(toasts[..n], ids, id);
      var rest := WithoutAll(toasts[..n], ids);
      if toasts[n].id !in ids {
        assert (rest + [toasts[n]])[..|rest|] == rest;
      } else {
        assert WithoutAll(toasts, ids) == rest;
      }
    }
  }

  function Firings(order: seq<Id>): seq<Step> {
    seq(|order|, i requires 0 <= i < |order| => Fire(order[i]))
  }

  lemma {:induction false} NothingRemoved(toasts: seq<Toast>)
    ensures WithoutAll(toasts, {}) == toasts
  {
    if toasts != [] {
      NothingRemoved(toasts[..|toasts| - 1]);
      assert toasts == toasts[..|toasts| - 1] + [toasts[|toasts| - 1]];
    }
  }

  lemma LastCallback(order: seq<Id>, callbacks: multiset<Id>)
    requires order != [] && multiset(order) <= callbacks
    ensures var rest, last := order[..|order| - 1], order[|order| - 1];
            && multiset(rest) <= callbacks
            && last in callbacks - multiset(rest)
            && callbacks - multiset(rest) - multiset{last} == callbacks - multiset(order)
            && Elements(order) == Elements(rest) + {last}
  {
    var rest, last := order[..|order| - 1], order[|order| - 1];
    assert order == rest + [last];
    assert multiset(order) == multiset(rest) + multiset{last};
  }

  lemma FireRemoves(settings: Settings, count: nat, toasts: seq<Toast>, timers: Timers, ids: set<Id>,
                    rest: multiset<Id>, id: Id)
    requires settings.modulus > 0 && id in rest
    ensures Next(settings, State(count, WithoutAll(toasts, ids), Timers(timers.known - ids, rest)), Fire(id)) ==
            State(count, WithoutAll(toasts, ids + {id}), Timers(timers.known - (ids + {id}), rest - multiset{id}))
  {
    RemovalsAccumulate(toasts, ids, id);
    assert timers.known - ids - {id} == timers.known - (ids + {id});
  }

  /** Running callbacks one after another removes their toasts, whatever the order. */
  lemma {:induction false} FiringsRemove(settings: Settings, s: State, order: seq<Id>)
    requires settings.modulus > 0
    requires multiset(order) <= s.timers.callbacks
    ensures RunFrom(settings, s, Firings(order)) ==
            State(s.count, WithoutAll(s.toasts, Elements(order)),
                  Timers(s.timers.known - Elements(order), s.timers.callbacks - multiset(order)))
  {
    if order == [] {
      NothingRemoved(s.toasts);
      assert Elements(order) == {};
    } else {
      var n := |order| - 1;
      assert Firings(order)[..n] == Firings(order[..n]);
      LastCallback(order, s.timers.callbacks);
      FiringsRemove(settings, s, order[..n]);
      FireRemoves(settings, s.count, s.toasts, s.timers, Elements(order[..n]),
                  s.timers.callbacks - multiset(order[..n]), order[n]);
    }
  }

  lemma {:induction false} PendingAreClosed(toasts: seq<Toast>, ids: set<Id>)
    requires forall t :: t in toasts ==> (!t.open <==> t.id in ids)
    ensures WithoutAll(toasts, ids) == OpenOnes(toasts)
  {
    if toasts != [] {
      PendingAreClosed(toasts[..|toasts| - 1], ids);
      assert toasts[|toasts| - 1] in toasts;
    }
  }

  /**
   Main result: once all scheduled callbacks have run, in any order, exactly the open toasts remain,
   in their order, and the timeout map is empty.
   */
  lemma AllTimersFired(settings: Settings, steps: seq<Step>, order: seq<Id>)
    requires settings.modulus > 0 && Guarded(settings, steps)
    requires multiset(order) == Run(settings, steps).timers.callbacks
    ensures var s := Run(settings, steps);
            RunFrom(settings, s, Firings(order)) == State(s.count, OpenOnes(s.toasts), Timers({}, multiset{}))
  {
    var s := Run(settings, steps);
    RunAgreesIff(settings, steps);
    OneCallbackEach(settings, steps);
    FiringsRemove(settings, s, order);
    forall id
      ensures id in Elements(order) <==> id in s.timers.known
    {
      assert id in order <==> id in multiset(order);
    }
    assert Elements(order) == s.timers.known;
    PendingAreClosed(s.toasts, Elements(order));
  }

  // ---------------------------------------------------------------- each guard is needed

  /** A toast that is open although a callback will remove it. */
  ghost predicate Doomed(s: State) {
    exists t :: t in s.toasts && t.open && t.id in s.timers.callbacks
  }

  /** A toast that is closed although no callback will remove it. */
  ghost predicate Stuck(s: State) {
    exists t :: t in s.toasts && !t.open && t.id !in s.timers.callbacks
  }

  lemma ShownToast(settings: Settings, s: State, text: string)
    requires settings.modulus > 0 && settings.limit > 0
    ensures var next := Next(settings, s, Show(text));
            next.toasts != [] && next.toasts[0] == Toast(next.count, text, true) && next.toasts[0] in next.toasts
  {
  }

  /** Closing a toast by an update leaves it without a timer; reopening a dismissed one does not stop its timer. */
  lemma UpdatesCanBreakTimers(settings: Settings, s: State, text: string)
    requires settings.modulus > 0 && settings.limit > 0 && s.timers == INITIAL.timers
    ensures var shown := Next(settings, s, Show(text));
            var id := shown.count;
            && Stuck(Next(settings, shown, Update(id, None, Some(false))))
            && Doomed(Next(settings, Next(settings, shown, Dismiss(Some(id))), Update(id, None, Some(true))))
  {
    ShownToast(settings, s, text);
    var shown := Next(settings, s, Show(text));
    var closed := Next(settings, shown, Update(shown.count, None, Some(false)));
    assert closed.toasts[0] in closed.toasts && closed.toasts[0].id !in closed.timers.callbacks;
    var dismissed := Next(settings, shown, Dismiss(Some(shown.count)));
    assert dismissed.toasts[0].id == shown.count && shown.count in dismissed.timers.callbacks;
    var reopened := Next(settings, dismissed, Update(shown.count, None, Some(true)));
    assert reopened.toasts[0] in reopened.toasts && reopened.toasts[0].open;
  }

  /** Dismissing an id before it is issued dooms the toast that gets it. */
  lemma EarlyDismissalDooms(settings: Settings, s: State, text: string)
    requires settings.modulus > 0 && settings.limit > 0 && OneEach(s.timers)
    ensures var id := (s.count + 1) % settings.modulus;
            Doomed(Next(settings, Next(settings, s, Dismiss(Some(id))), Show(text)))
  {
    var id := (s.count + 1) % settings.modulus;
    var early := Next(settings, s, Dismiss(Some(id)));
    StepKeepsOneEach(settings, s, Dismiss(Some(id)));
    ShownToast(settings, early, text);
  }

  lemma {:induction false} ShowsKeepTimers(settings: Settings, s: State, steps: seq<Step>)
    requires settings.modulus > 0
    requires forall k :: 0 <= k < |steps| ==> steps[k].Show?
    ensures RunFrom(settings, s, steps).timers == s.timers && Shown(steps) == |steps|
  {
    if steps != [] {
      ShowsKeepTimers(settings, s, steps[..|steps| - 1]);
    }
  }

  /**
   The bound on shown toasts is tight: one more than the modulus brings an id back, and a toast
   whose predecessor of that id still has its timer running is removed while open.
   */
  lemma OneTooManyDooms(settings: Settings, text: string)
    requires settings.modulus > 0 && settings.limit > 0
    ensures var dismissed := Next(settings, Next(settings, INITIAL, Show(text)), Dismiss(None));
            Doomed(RunFrom(settings, dismissed, seq(settings.modulus, k => Show(text))))
  {
    NextCount(0, settings.modulus);
    var first := Next(settings, INITIAL, Show(text));
    ShownToast(settings, INITIAL, text);
    var dismissed := Next(settings, first, Dismiss(None));
    AddAllKeepsOneEach(first.timers, first.toasts);
    assert first.count in Ids(first.toasts);
    var shows := seq(settings.modulus, k => Show(text));
    ShowsKeepTimers(settings, dismissed, shows);
    CountIs(settings, dismissed, shows);
    ShownToast(settings, RunFrom(settings, dismissed, shows[..|shows| - 1]), text);
  }
}
