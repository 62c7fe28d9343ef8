/** The toast list of hooks/use-toast.ts as a state machine: user actions and timers going off. */
module ToastModel {
  import opened Options
  import opened Sequences

  type Id = nat

  datatype Toast = Toast(id: Id, text: string, open: bool)

  /** `known` are the keys of the timeout map; `callbacks` are the removals that have been scheduled and not yet run. */
  datatype Timers = Timers(known: set<Id>, callbacks: multiset<Id>)
  {
    /** Schedules a removal unless the map already knows one. */
    function Add(id: Id): Timers {
      if id in known then this else Timers(known + {id}, callbacks + multiset{id})
    }
  }

  datatype State = State(count: nat, toasts: seq<Toast>, timers: Timers)

  const INITIAL := State(0, [], Timers({}, multiset{}))

  /** `Show` is a call of toast(); `Fire` is a scheduled removal running. */
  datatype Step =
    | Show(text: string)
    | Update(id: Id, newText: Option<string>, newOpen: Option<bool>)
    | Dismiss(target: Option<Id>)
    | Remove(target: Option<Id>)
    | Fire(id: Id)

  /** The list's capacity and the modulus of the id counter. */
  datatype Settings = Settings(limit: nat, modulus: nat)

  const PRODUCTION := Settings(1, 9007199254740991)

  function Without(toasts: seq<Toast>, id: Id): seq<Toast> {
    if toasts == [] then []
    else Without(toasts[..|toasts| - 1], id) + if toasts[|toasts| - 1].id == id then [] else [toasts[|toasts| - 1]]
  }

  function Patched(toast: Toast, id: Id, text: Option<string>, open: Option<bool>): Toast {
    if toast.id == id then toast.(text := text.GetOr(toast.text), open := open.GetOr(toast.open)) else toast
  }

  function Closed(toast: Toast, target: Option<Id>): Toast {
    if target.None? || toast.id == target.value then toast.(open := false) else toast
  }

  function Ids(toasts: seq<Toast>): set<Id> {
    set i | 0 <= i < |toasts| :: toasts[i].id
  }

  /** Schedules the removal of every toast, one after another. */
  function AddAll(timers: Timers, toasts: seq<Toast>): Timers {
    if toasts == [] then timers else AddAll(timers, toasts[..|toasts| - 1]).Add(toasts[|toasts| - 1].id)
  }

  function Next(settings: Settings, s: State, step: Step): State
    requires settings.modulus > 0
  {
    match step
    case Show(text) =>
      var id := (s.count + 1) % settings.modulus;
      State(id, Take([Toast(id, text, true)] + s.toasts, settings.limit), s.timers)
    case Update(id, text, open) =>
      s.(toasts := seq(|s.toasts|, i requires 0 <= i < |s.toasts| => Patched(s.toasts[i], id, text, open)))
    case Dismiss(target) =>
      s.(toasts := seq(|s.toasts|, i requires 0 <= i < |s.toasts| => Closed(s.toasts[i], target)),
         timers := if target.None? then AddAll(s.timers, s.toasts) else s.timers.Add(target.value))
    case Remove(target) =>
      s.(toasts := if target.None? then [] else Without(s.toasts, target.value))
    case Fire(id) =>
      if id in s.timers.callbacks
      then State(s.count, Without(s.toasts, id), Timers(s.timers.known - {id}, s.timers.callbacks - multiset{id}))
      else s
  }

  function RunFrom(settings: Settings, s: State, steps: seq<Step>): State
    requires settings.modulus > 0
  {
    if steps == [] then s else Next(settings, RunFrom(settings, s, steps[..|steps| - 1]), steps[|steps| - 1])
  }

  function Run(settings: Settings, steps: seq<Step>): State
    requires settings.modulus > 0
  {
    RunFrom(settings, INITIAL, steps)
  }
}
