/** The module-level store: the counter, the timeout map and the remembered list, changed in place. */
module ToastStore {
  import opened Options
  import opened Sequences
  import opened ToastModel

  class Store {
    const settings: Settings
    var count: nat
    var toasts: seq<Toast>
    var timeouts: set<Id>
    /** The callbacks that setTimeout holds. */
    var callbacks: multiset<Id>

    constructor (settings: Settings)
      ensures this.settings == settings && View() == INITIAL
    {
      this.settings := settings;
      count, toasts, timeouts, callbacks := 0, [], {}, multiset{};
    }

    function View(): State
      reads this
    {
      State(count, toasts, Timers(timeouts, callbacks))
    }

    method GenId() returns (id: Id)
      requires settings.modulus > 0
      modifies this`count
      ensures id == count == (old(count) + 1) % settings.modulus
    {
      count := (count + 1) % settings.modulus;
      id := count;
    }

    /** Starts a timer unless one is known: a callback is scheduled exactly for a key that is new to the map. */
    method AddToRemoveQueue(id: Id)
      modifies this`timeouts, this`callbacks
      ensures Timers(timeouts, callbacks) == old(Timers(timeouts, callbacks)).Add(id)
      ensures timeouts == old(timeouts) + {id}
      ensures callbacks == if id in old(timeouts) then old(callbacks) else old(callbacks) + multiset{id}
    {
      if id in timeouts {
        return;
      }
      callbacks := callbacks + multiset{id};
      timeouts := timeouts + {id};
    }

    method Filter(id: Id) returns (kept: seq<Toast>)
      ensures kept == Without(toasts, id)
    {
      kept := [];
      for i := 0 to |toasts|
        invariant kept == Without(toasts[..i], id)
      {
        assert toasts[..i + 1][..i] == toasts[..i];
        if toasts[i].id != id {
          kept := kept + [toasts[i]];
        }
      }
      assert toasts[..|toasts|] == toasts;
    }

    /** The new toast is open and leads the list; behind it come as many of the older ones as the limit lets stay. */
    method ShowToast(text: string) returns (id: Id)
      requires settings.modulus > 0
      modifies this
      ensures View() == Next(settings, old(View()), Show(text))
      ensures id == count && timeouts == old(timeouts) && callbacks == old(callbacks)
      ensures settings.limit == 0 ==> toasts == []
      ensures settings.limit > 0 ==>
                && toasts != [] && toasts[0] == Toast(id, text, true) && toasts[1..] <= old(toasts)
                && (|toasts| == settings.limit || toasts[1..] == old(toasts))
    {
      id := GenId();
      toasts := Take([Toast(id, text, true)] + toasts, settings.limit);
    }

    /** Ids, order, other toasts, counter and timers stay; an absent field keeps its value. */
    method UpdateToast(id: Id, text: Option<string>, open: Option<bool>)
      requires settings.modulus > 0
      modifies this`toasts
      ensures View() == Next(settings, old(View()), Update(id, text, open))
      ensures |toasts| == |old(toasts)|
      ensures forall i :: 0 <= i < |toasts| ==>
                && toasts[i].id == old(toasts)[i].id
                && (toasts[i].id != id ==> toasts[i] == old(toasts)[i])
                && (text.None? ==> toasts[i].text == old(toasts)[i].text)
                && (open.None? ==> toasts[i].open == old(toasts)[i].open)
    {
      toasts := seq(|toasts|, i requires 0 <= i < |toasts| reads this => Patched(toasts[i], id, text, open));
    }

    /** The loop over the remembered toasts of a dismissal without a target. */
    method QueueAll()
      modifies this`timeouts, this`callbacks
      ensures Timers(timeouts, callbacks) == AddAll(old(Timers(timeouts, callbacks)), toasts)
    {
      ghost var before := Timers(timeouts, callbacks);
      for i := 0 to |toasts|
        invariant Timers(timeouts, callbacks) == AddAll(before, toasts[..i])
      {
        AddToRemoveQueue(toasts[i].id);
        assert toasts[..i + 1][..i] == toasts[..i];
      }
      assert toasts[..|toasts|] == toasts;
    }

    method DismissToast(target: Option<Id>)
      requires settings.modulus > 0
      modifies this
      ensures View() == Next(settings, old(View()), Dismiss(target))
    {
      if target.Some? {
        AddToRemoveQueue(target.value);
      } else {
        QueueAll();
      }
      toasts := seq(|toasts|, i requires 0 <= i < |toasts| reads this => Closed(toasts[i], target));
    }

    method RemoveToast(target: Option<Id>)
      requires settings.modulus > 0
      modifies this`toasts
      ensures View() == Next(settings, old(View()), Remove(target))
    {
      if target.None? {
        toasts := [];
      } else {
        toasts := Filter(target.value);
      }
    }

    /** A callback for `id` runs: it forgets the key, then removes the toast. */
    method TimerFires(id: Id)
      requires settings.modulus > 0 && id in callbacks
      modifies this
      ensures View() == Next(settings, old(View()), Fire(id))
    {
      callbacks := callbacks - multiset{id};
      timeouts := timeouts - {id};
      RemoveToast(Some(id));
    }
  }
}
