/** Portal readiness from browser events: which page context reported that the portal
    consumed its session. */
module Readiness {
  import opened Options

  const CONSUMED_BINDING := "__korriRpcConsumed"

  datatype Event =
    | Created(context: Option<nat>, origin: string, frame: string, isDefault: bool)
    | Destroyed(context: Option<nat>)
    | Cleared
    | BindingCalled(name: string, payload: string, context: Option<nat>)
    | OtherEvent

  /** A parsed browser message; a response carries an identifier and a result or an error. */
  datatype Message = Message(session: Option<string>, event: Event, id: Option<nat>,
                             failed: bool, result: Option<string>)

  /** Whose callbacks count. */
  datatype Portal = Portal(session: string, frame: string, origin: string)

  datatype View = View(contexts: map<nat, bool>, consumed: Option<nat>)

  /** What one message does to the context table and the consumed context. */
  function Observed(p: Portal, v: View, m: Message): View {
    if m.session != Some(p.session) then v
    else match m.event
      case Created(Some(id), origin, frame, isDefault) =>
        v.(contexts := v.contexts[id := origin == p.origin && frame == p.frame && isDefault])
      case Destroyed(Some(id)) =>
        View(v.contexts - {id}, if v.consumed == Some(id) then None else v.consumed)
      case Cleared => View(map[], None)
      case BindingCalled(name, payload, Some(id)) =>
        if name == CONSUMED_BINDING && payload == "" && id in v.contexts && v.contexts[id]
        then v.(consumed := Some(id)) else v
      case _ => v
  }

  class PortalReadiness {
    const portal: Portal
    var contexts: map<nat, bool>
    var consumed: Option<nat>

    constructor (portal: Portal)
      ensures this.portal == portal && Now() == View(map[], None)
    {
      this.portal := portal;
      contexts, consumed := map[], None;
    }

    function Now(): View
      reads this
    {
      View(contexts, consumed)
    }

    /** `observe`. */
    method Observe(m: Message)
      modifies this
      ensures Now() == Observed(portal, old(Now()), m)
    {
      if m.session != Some(portal.session) {
        return;
      }
      match m.event {
        case Created(id, origin, frame, isDefault) =>
          if id.Some? {
            contexts := contexts[id.value := origin == portal.origin && frame == portal.frame && isDefault];
          }
        case Destroyed(id) =>
          if id.Some? {
            contexts := contexts - {id.value};
            if consumed == id {
              consumed := None;
            }
          }
        case Cleared =>
          contexts := map[];
          consumed := None;
        case BindingCalled(name, payload, id) =>
          if name == CONSUMED_BINDING && payload == "" && id.Some? {
            if id.value in contexts && contexts[id.value] {
              consumed := id;
            }
          }
        case OtherEvent =>
      }
    }
  }

  // ----- histories -----

  /** The state after the first `n` messages. */
  function After(p: Portal, trace: seq<Message>, n: nat): View
    requires n <= |trace|
  {
    if n == 0 then View(map[], None) else Observed(p, After(p, trace, n - 1), trace[n - 1])
  }

  predicate Ours(p: Portal, m: Message) {
    m.session == Some(p.session)
  }

  /** A creation of the configured page's own default context. */
  predicate CreatesPage(p: Portal, m: Message, c: nat) {
    Ours(p, m) && m.event == Created(Some(c), p.origin, p.frame, true)
  }

  /** Any event that settles anew what a context is. */
  predicate Touches(p: Portal, m: Message, c: nat) {
    Ours(p, m) && ((m.event.Created? && m.event.context == Some(c)) || Ends(p, m, c))
  }

  predicate Ends(p: Portal, m: Message, c: nat) {
    Ours(p, m) && (m.event == Destroyed(Some(c)) || m.event == Cleared)
  }

  /** The latest lifecycle event of `c` before `n` created it as the page's context. */
  predicate IsPage(p: Portal, trace: seq<Message>, n: nat, c: nat)
    requires n <= |trace|
  {
    exists j | 0 <= j < n :: CreatesPage(p, trace[j], c) && Untouched(p, trace, j + 1, n, c)
  }

  predicate Untouched(p: Portal, trace: seq<Message>, from: nat, n: nat, c: nat)
    requires from <= n <= |trace|
  {
    forall i | from <= i < n :: !Touches(p, trace[i], c)
  }

  predicate Calls(p: Portal, m: Message, c: nat) {
    Ours(p, m) && m.event == BindingCalled(CONSUMED_BINDING, "", Some(c))
  }

  /** The call at `k` is accepted: its context was then the page's. */
  predicate Accepted(p: Portal, trace: seq<Message>, k: nat, c: nat)
    requires k < |trace|
  {
    Calls(p, trace[k], c) && IsPage(p, trace, k, c)
  }

  /** No call is accepted and `c` does not end from `from` to before `n`. */
  predicate Undisturbed(p: Portal, trace: seq<Message>, from: nat, n: nat, c: nat)
    requires from <= n <= |trace|
  {
    forall i | from <= i < n :: !Ends(p, trace[i], c) && !AcceptsAny(p, trace, i)
  }

  predicate AcceptsAny(p: Portal, trace: seq<Message>, k: nat)
    requires k < |trace|
  {
    && Ours(p, trace[k]) && trace[k].event.BindingCalled? && trace[k].event.context.Some?
    && Accepted(p, trace, k, trace[k].event.context.value)
  }

  /** The last accepted call named `c`, and neither its destruction nor a clear followed. */
  predicate ConsumedBy(p: Portal, trace: seq<Message>, n: nat, c: nat)
    requires n <= |trace|
  {
    exists k | 0 <= k < n :: Accepted(p, trace, k, c) && Undisturbed(p, trace, k + 1, n, c)
  }

  lemma IsPageStep(p: Portal, trace: seq<Message>, n: nat, c: nat)
    requires 0 < n <= |trace|
    ensures IsPage(p, trace, n, c)
       <==> (CreatesPage(p, trace[n - 1], c) || (IsPage(p, trace, n - 1, c) && !Touches(p, trace[n - 1], c)))
  {
  }

  /** The context table is the history: a context is marked exactly when its latest
      lifecycle event created it with the configured session, frame, origin and default flag. */
  lemma {:induction false} TableIsHistory(p: Portal, trace: seq<Message>, n: nat, c: nat)
    requires n <= |trace|
    ensures var v := After(p, trace, n); (c in v.contexts && v.contexts[c]) <==> IsPage(p, trace, n, c)
  {
    if n > 0 {
      TableIsHistory(p, trace, n - 1, c);
      IsPageStep(p, trace, n, c);
    }
  }

  lemma ConsumedStep(p: Portal, trace: seq<Message>, n: nat, c: nat)
    requires 0 < n <= |trace|
    ensures ConsumedBy(p, trace, n, c)
       <==> (Accepted(p, trace, n - 1, c)
            || (ConsumedBy(p, trace, n - 1, c) && !Ends(p, trace[n - 1], c) && !AcceptsAny(p, trace, n - 1)))
  {
  }

  /** Readiness is its history. */
  lemma {:induction false} ConsumedIsHistory(p: Portal, trace: seq<Message>, n: nat, c: nat)
    requires n <= |trace|
    ensures After(p, trace, n).consumed == Some(c) <==> ConsumedBy(p, trace, n, c)
  {
    if n > 0 {
      ConsumedIsHistory(p, trace, n - 1, c);
      ConsumedStep(p, trace, n, c);
      var m := trace[n - 1];
      if Ours(p, m) && m.event.BindingCalled? && m.event.context.Some? {
        TableIsHistory(p, trace, n - 1, m.event.context.value);
      }
    }
  }

  /** The messages of another session change nothing. */
  lemma OthersIgnored(p: Portal, trace: seq<Message>, n: nat)
    requires n < |trace| && !Ours(p, trace[n])
    ensures After(p, trace, n + 1) == After(p, trace, n)
  {
  }
}
