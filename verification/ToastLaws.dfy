/** What each step of the toast store does, toast by toast and timer by timer. */
module ToastLaws {
  import opened Options
  import opened ToastModel
  import opened ToastRuns

  /** A new toast is open, leads the list under the next id, and pushes out what exceeds the limit. */
  lemma ShowTells(settings: Settings, s: State, text: string)
    requires s.count < settings.modulus
    ensures var next := Next(settings, s, Show(text));
            && next.timers == s.timers
            && next.count == (if s.count + 1 == settings.modulus then 0 else s.count + 1)
            && |next.toasts| == (if |s.toasts| < settings.limit then |s.toasts| + 1 else settings.limit)
            && forall i :: 0 <= i < |next.toasts| ==>
                 next.toasts[i] == if i == 0 then Toast(next.count, text, true) else s.toasts[i - 1]
  {
    NextCount(s.count, settings.modulus);
  }

  /** An update sets the given fields of the toasts of that id and changes nothing else. */
  lemma UpdateTells(settings: Settings, s: State, id: Id, text: Option<string>, open: Option<bool>)
    requires settings.modulus > 0
    ensures var next := Next(settings, s, Update(id, text, open));
            && next.timers == s.timers && next.count == s.count && |next.toasts| == |s.toasts|
            && forall i :: 0 <= i < |s.toasts| ==>
                 var toast := s.toasts[i];
                 && next.toasts[i].id == toast.id
                 && next.toasts[i].text == (if toast.id == id && text.Some? then text.value else toast.text)
                 && next.toasts[i].open == (if toast.id == id && open.Some? then open.value else toast.open)
  {
  }

  lemma {:induction false} AddAllTells(timers: Timers, toasts: seq<Toast>, id: Id)
    ensures var after := AddAll(timers, toasts);
            && (id in after.known <==> id in timers.known || exists i :: 0 <= i < |toasts| && toasts[i].id == id)
            && after.callbacks[id] ==
               timers.callbacks[id] + if id in after.known && id !in timers.known then 1 else 0
  {
    if toasts != [] {
      var n := |toasts| - 1;
      AddAllTells(timers, toasts[..n], id);
      if i :| 0 <= i < n && toasts[..n][i].id == id {
        assert toasts[i].id == id;
      }
    }
  }

  /**
   A dismissal closes the toasts it is for, all without a target, and schedules one removal for each id
   that had no timer; an id that the map knows keeps the one it has.
   */
  lemma DismissTells(settings: Settings, s: State, target: Option<Id>, id: Id)
    requires settings.modulus > 0
    ensures var next := Next(settings, s, Dismiss(target));
            var meant := if target.Some? then id == target.value
                         else exists i :: 0 <= i < |s.toasts| && s.toasts[i].id == id;
            && next.count == s.count && |next.toasts| == |s.toasts|
            && (forall i :: 0 <= i < |s.toasts| ==>
                  next.toasts[i] == if target.None? || s.toasts[i].id == target.value
                                    then Toast(s.toasts[i].id, s.toasts[i].text, false) else s.toasts[i])
            && (id in next.timers.known <==> id in s.timers.known || meant)
            && next.timers.callbacks[id] ==
               s.timers.callbacks[id] + if meant && id !in s.timers.known then 1 else 0
  {
    if target.None? {
      AddAllTells(s.timers, s.toasts, id);
    }
  }

  /** Filtering goes through a list toast by toast. */
  lemma WithoutNext(toasts: seq<Toast>, toast: Toast, id: Id)
    ensures Without([], id) == []
    ensures Without(toasts + [toast], id) == Without(toasts, id) + if toast.id == id then [] else [toast]
  {
    assert (toasts + [toast])[..|toasts|] == toasts;
  }

  /** A removal takes the toasts of the target, or all, and leaves every timer running. */
  lemma RemoveTells(settings: Settings, s: State, target: Option<Id>)
    requires settings.modulus > 0
    ensures var next := Next(settings, s, Remove(target));
            && next.timers == s.timers && next.count == s.count
            && forall t :: t in next.toasts <==> t in s.toasts && target.Some? && t.id != target.value
  {
    if target.Some? {
      WithoutShrinks(s.toasts, target.value);
    }
  }

  /** A scheduled removal that runs takes the toasts of its id, forgets the key and is used up; else nothing happens. */
  lemma FireTells(settings: Settings, s: State, id: Id, other: Id)
    requires settings.modulus > 0
    ensures s.timers.callbacks[id] == 0 ==> Next(settings, s, Fire(id)) == s
    ensures s.timers.callbacks[id] > 0 ==>
              var next := Next(settings, s, Fire(id));
              && next.count == s.count
              && (forall t :: t in next.toasts <==> t in s.toasts && t.id != id)
              && (other in next.timers.known <==> other in s.timers.known && other != id)
              && next.timers.callbacks[other] == s.timers.callbacks[other] - if other == id then 1 else 0
  {
    WithoutShrinks(s.toasts, id);
  }

  /** The store as shipped shows one toast at a time, and its counter runs through 2^53 - 1 ids. */
  lemma OneToastAtATime(steps: seq<Step>)
    ensures |Run(PRODUCTION, steps).toasts| <= 1 && PRODUCTION.modulus == 0x20_0000_0000_0000 - 1
  {
    NeverOverLimit(PRODUCTION, steps);
  }
}
