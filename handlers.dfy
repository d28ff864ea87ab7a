/**
 * The per-key change handlers every storage channel keeps
 * (`_handlers[key]`, a list in registration order), and the calls a
 * channel's change listener makes to them.
 */
module Handlers {
  import opened Js

  /** One call `handler({oldVal, newVal})` made by a change listener. */
  datatype Notification = Notification(handler: JsValue, oldVal: JsValue, newVal: JsValue)

  /** `_handlers[key] || []` */
  function HandlersOf(handlers: map<string, seq<JsValue>>, key: string): seq<JsValue> {
    if key in handlers then handlers[key] else []
  }

  /** The calls `handlers.forEach((handler) => handler({oldVal, newVal}))` makes, in order. */
  function Calls(hs: seq<JsValue>, oldVal: JsValue, newVal: JsValue): (r: seq<Notification>)
    ensures |r| == |hs|
    ensures forall i :: 0 <= i < |hs| ==> r[i] == Notification(hs[i], oldVal, newVal)
  {
    if hs == [] then [] else Calls(hs[..|hs| - 1], oldVal, newVal) + [Notification(hs[|hs| - 1], oldVal, newVal)]
  }

  /** `handlers.forEach((handler) => handler({oldVal, newVal}))` */
  method CallHandlers(hs: seq<JsValue>, oldVal: JsValue, newVal: JsValue) returns (calls: seq<Notification>)
    ensures calls == Calls(hs, oldVal, newVal)
  {
    calls := [];
    var j := 0;
    while j < |hs|
      invariant 0 <= j <= |hs|
      invariant calls == Calls(hs[..j], oldVal, newVal)
    {
      assert hs[..j + 1][..j] == hs[..j];
      calls := calls + [Notification(hs[j], oldVal, newVal)];
      j := j + 1;
    }
    assert hs[..|hs|] == hs;
  }

  /** The handlers after `_handlers[key].push(handler)`, priming the key's list when it has none. */
  function Registered(handlers: map<string, seq<JsValue>>, key: string, handler: JsValue): (r: map<string, seq<JsValue>>)
    ensures HandlersOf(r, key) == HandlersOf(handlers, key) + [handler]
    ensures forall k :: k != key ==> HandlersOf(r, k) == HandlersOf(handlers, k)
  {
    handlers[key := HandlersOf(handlers, key) + [handler]]
  }
}
