/** The captcha widget of `frontend/components/TurnstileWidget.tsx`: it renders
    once the script has loaded, never twice while it holds a widget id, removes
    the widget on cleanup, and hands tokens to the latest `onToken` callback. */
module TurnstileWidget {
  import opened Common

  /** What Turnstile passes to the success callback. */
  datatype TokenValue = Undefined | Null | Str(s: string) | OtherValue(text: string)

  /** `String(token ?? '')`; `text` is what `String` makes of another value. */
  function SuccessToken(v: TokenValue): (r: string)
    ensures v.Undefined? || v.Null? ==> r == ""
    ensures v.Str? ==> r == v.s
    ensures v.OtherValue? ==> r == v.text
  {
    match v
    case Undefined => ""
    case Null => ""
    case Str(s) => s
    case OtherValue(text) => text
  }

  datatype Callback = Success(token: TokenValue) | Expired | Failed

  /** The token each callback hands on: the expired and error callbacks
      clear it. */
  function DeliveredToken(cb: Callback): (r: string)
    ensures cb.Expired? || cb.Failed? ==> r == ""
    ensures cb.Success? ==> r == SuccessToken(cb.token)
  {
    if cb.Success? then SuccessToken(cb.token) else ""
  }

  /** `if (widgetIdRef.current)`: an id is held when present and non-empty. */
  predicate Holds(id: Option<string>)
  {
    id.Some? && id.value != ""
  }

  /** The widget state: `scriptReady`, `widgetIdRef`, `onTokenRef` (handlers
      are numbered), the widgets rendered and removed, and the tokens handed
      out, each with the handler that received it. */
  class Widget {
    var scriptReady: bool
    var widgetId: Option<string>
    var handler: nat
    var rendered: seq<string>
    var removed: seq<string>
    var delivered: seq<(nat, string)>

    constructor(onToken: nat)
      ensures !scriptReady && widgetId == None && handler == onToken
      ensures rendered == [] && removed == [] && delivered == []
    {
      scriptReady := false;
      widgetId := None;
      handler := onToken;
      rendered := [];
      removed := [];
      delivered := [];
    }

    /** The effect that keeps `onTokenRef` current. */
    method SetHandler(onToken: nat)
      modifies this
      ensures handler == onToken
      ensures scriptReady == old(scriptReady) && widgetId == old(widgetId)
      ensures rendered == old(rendered) && removed == old(removed) && delivered == old(delivered)
    {
      handler := onToken;
    }

    /** The script's `onLoad`. */
    method ScriptLoaded()
      modifies this
      ensures scriptReady
      ensures widgetId == old(widgetId) && handler == old(handler)
      ensures rendered == old(rendered) && removed == old(removed) && delivered == old(delivered)
    {
      scriptReady := true;
    }

    /** The render effect; `newId` is what `turnstile.render` returns. It
        renders, and registers its cleanup, only when every guard passes. */
    method RenderEffect(siteKey: string, hasContainer: bool, hasTurnstile: bool, newId: string)
      returns (cleanupRegistered: bool)
      modifies this
      ensures cleanupRegistered <==>
                scriptReady && siteKey != "" && hasContainer && hasTurnstile && !Holds(old(widgetId))
      ensures cleanupRegistered ==> widgetId == Some(newId) && rendered == old(rendered) + [newId]
      ensures !cleanupRegistered ==> widgetId == old(widgetId) && rendered == old(rendered)
      ensures scriptReady == old(scriptReady) && handler == old(handler)
      ensures removed == old(removed) && delivered == old(delivered)
    {
      if !scriptReady || siteKey == "" || !hasContainer || !hasTurnstile || Holds(widgetId) {
        return false;
      }
      widgetId := Some(newId);
      rendered := rendered + [newId];
      return true;
    }

    /** The effect's cleanup: the ref is cleared, and the widget removed when
        `turnstile.remove` exists and does not throw. */
    method Cleanup(hasRemove: bool, removeThrows: bool)
      modifies this
      ensures widgetId == None
      ensures Holds(old(widgetId)) && hasRemove && !removeThrows ==> removed == old(removed) + [old(widgetId).value]
      ensures !(Holds(old(widgetId)) && hasRemove && !removeThrows) ==> removed == old(removed)
      ensures scriptReady == old(scriptReady) && handler == old(handler)
      ensures rendered == old(rendered) && delivered == old(delivered)
    {
      var id := widgetId;
      widgetId := None;
      if Holds(id) && hasRemove && !removeThrows {
        removed := removed + [id.value];
      }
    }

    /** A widget callback fires; it calls whichever handler the ref holds now. */
    method Deliver(cb: Callback)
      modifies this
      ensures delivered == old(delivered) + [(handler, DeliveredToken(cb))]
      ensures scriptReady == old(scriptReady) && widgetId == old(widgetId) && handler == old(handler)
      ensures rendered == old(rendered) && removed == old(removed)
    {
      delivered := delivered + [(handler, DeliveredToken(cb))];
    }
  }

  /** Before the script has loaded nothing is rendered. */
  method NoRenderBeforeLoad(siteKey: string) returns (rendered: seq<string>)
    ensures rendered == []
  {
    var w := new Widget(0);
    var registered := w.RenderEffect(siteKey, true, true, "w1");
    rendered := w.rendered;
  }

  /** A second run of the render effect while the first widget's id is held
      renders nothing; after cleanup a new widget may be rendered. */
  method RenderOnceWhileHeld(siteKey: string) returns (before: seq<string>, after: seq<string>)
    requires siteKey != ""
    ensures before == ["w1"]
    ensures after == ["w1", "w3"]
  {
    var w := new Widget(0);
    w.ScriptLoaded();
    var first := w.RenderEffect(siteKey, true, true, "w1");
    var second := w.RenderEffect(siteKey, true, true, "w2");
    before := w.rendered;
    w.Cleanup(true, false);
    var third := w.RenderEffect(siteKey, true, true, "w3");
    after := w.rendered;
  }

  /** A token arriving after the parent passed a new `onToken` goes to the
      new one. */
  method LatestHandlerReceives(token: string) returns (delivered: seq<(nat, string)>)
    ensures delivered == [(2, token)]
  {
    var w := new Widget(1);
    w.ScriptLoaded();
    var registered := w.RenderEffect("key", true, true, "w1");
    w.SetHandler(2);
    w.Deliver(Success(Str(token)));
    delivered := w.delivered;
  }
}
