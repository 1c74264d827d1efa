/**
 * `useAntiCheat` from `lib/antiCheat.ts`: three event handlers that classify
 * browser events into violation kinds and report them through the optional
 * `onViolation` callback, and the effect that registers them on `window` and
 * `document` and whose cleanup unregisters them.
 *
 * Each run of the effect creates three new handler closures; a `Closure` object
 * stands for one, so two listeners are the same exactly when they share the
 * event type and the closure object, as in the DOM.
 */
module AntiCheat {
  import opened Wrappers

  /** The violation kinds the hook reports. */
  datatype Violation = TabSwitch | WindowBlur | CopyPaste {
    /** The string passed to `onViolation`. */
    function Name(): string {
      match this
      case TabSwitch => "TAB_SWITCH"
      case WindowBlur => "WINDOW_BLUR"
      case CopyPaste => "COPY_PASTE"
    }
  }

  /** The DOM event types the hook listens for: "blur", "visibilitychange" and "keydown". */
  datatype EventType = Blur | VisibilityChange | KeyDown

  /** What a handler can observe when it runs: `document.hidden` and the KeyboardEvent's fields. */
  datatype EventContext = EventContext(hidden: bool, ctrlKey: bool, metaKey: bool, key: string)

  /** The `visibility` handler: a tab switch when the document has become hidden. */
  function OnVisibilityChange(hidden: bool): (r: Option<Violation>)
    ensures r.Some? <==> hidden
    ensures r.Some? ==> r.value.Name() == "TAB_SWITCH"
  {
    if hidden then Some(TabSwitch) else None
  }

  /** The `blur` handler: every blur is a violation. */
  function OnBlur(): (r: Option<Violation>)
    ensures r.Some? && r.value.Name() == "WINDOW_BLUR"
  {
    Some(WindowBlur)
  }

  /** The `keydown` handler: Ctrl or Meta together with exactly the key "c" or "v". */
  function OnKeyDown(ctrlKey: bool, metaKey: bool, key: string): (r: Option<Violation>)
    ensures r.Some? <==> (ctrlKey || metaKey) && (key == "c" || key == "v")
    ensures r.Some? ==> r.value.Name() == "COPY_PASTE"
  {
    if (ctrlKey || metaKey) && (key == "c" || key == "v") then Some(CopyPaste) else None
  }

  /** The three handler bodies. */
  datatype Handler = VisibilityHandler | BlurHandler | KeyDownHandler {
    /** The only kind this handler can report. */
    function Kind(): Violation {
      match this
      case VisibilityHandler => TabSwitch
      case BlurHandler => WindowBlur
      case KeyDownHandler => CopyPaste
    }

    /** The event type the effect registers this handler for. */
    function Registers(): EventType {
      match this
      case VisibilityHandler => VisibilityChange
      case BlurHandler => Blur
      case KeyDownHandler => KeyDown
    }
  }

  /** What handler `h` reports for an event it receives; only ever its own kind. */
  function Classify(h: Handler, ctx: EventContext): (r: Option<Violation>)
    ensures r.Some? ==> r.value == h.Kind()
  {
    match h
    case VisibilityHandler => OnVisibilityChange(ctx.hidden)
    case BlurHandler => OnBlur()
    case KeyDownHandler => OnKeyDown(ctx.ctrlKey, ctx.metaKey, ctx.key)
  }

  /** What each handler reports, stated against the event's fields. */
  lemma ClassifierSpec(ctx: EventContext)
    ensures Classify(VisibilityHandler, ctx) == Some(TabSwitch) <==> ctx.hidden
    ensures Classify(VisibilityHandler, ctx).None? <==> !ctx.hidden
    ensures Classify(BlurHandler, ctx) == Some(WindowBlur)
    ensures Classify(KeyDownHandler, ctx) == Some(CopyPaste) <==>
            (ctx.ctrlKey || ctx.metaKey) && (ctx.key == "c" || ctx.key == "v")
    ensures !ctx.ctrlKey && !ctx.metaKey ==> Classify(KeyDownHandler, ctx).None?
    ensures ctx.key != "c" && ctx.key != "v" ==> Classify(KeyDownHandler, ctx).None?
    ensures forall h: Handler :: Classify(h, ctx).Some? ==> Classify(h, ctx).value == h.Kind()
  {
  }

  /** Upper-case "C" and "V" are not copy or paste for the hook, whatever the modifiers. */
  lemma UpperCaseKeysIgnored(ctrlKey: bool, metaKey: bool)
    ensures OnKeyDown(ctrlKey, metaKey, "C").None? && OnKeyDown(ctrlKey, metaKey, "V").None?
  {
    assert "C" != "c" && "C" != "v" && "V" != "c" && "V" != "v";
  }

  /** The wire names are distinct, so the callback can tell the kinds apart. */
  lemma ViolationNamesDistinct(a: Violation, b: Violation)
    ensures a.Name() == b.Name() <==> a == b
  {
    assert "TAB_SWITCH"[0] == 'T' && "WINDOW_BLUR"[0] == 'W' && "COPY_PASTE"[0] == 'C';
  }

  /** One handler closure created by one run of the effect. */
  class Closure {
    const handler: Handler
    /** Whether `onViolation` was defined when the effect ran. */
    const hasCallback: bool

    constructor (handler: Handler, hasCallback: bool)
      ensures this.handler == handler && this.hasCallback == hasCallback
    {
      this.handler := handler;
      this.hasCallback := hasCallback;
    }
  }

  /** `onViolation?.(kind)` after the handler ran: the callback invocations, in order. */
  function Invoke(c: Closure, ctx: EventContext): (calls: seq<Violation>)
    ensures |calls| <= 1
    ensures !c.hasCallback ==> calls == []
    ensures calls != [] ==> Classify(c.handler, ctx) == Some(calls[0])
    ensures c.hasCallback && Classify(c.handler, ctx).Some? ==> calls != []
  {
    match Classify(c.handler, ctx)
    case Some(v) => if c.hasCallback then [v] else []
    case None => []
  }

  /** An entry of an event target's listener list (the capture flag is always false here). */
  datatype Listener = Listener(eventType: EventType, callback: Closure)

  /** `ls` with the entry `l` taken out, as `removeEventListener` does. */
  function Remove(ls: seq<Listener>, l: Listener): (r: seq<Listener>)
    ensures |r| <= |ls|
    decreases |ls|
  {
    if ls == [] then []
    else if ls[0] == l then Remove(ls[1..], l)
    else [ls[0]] + Remove(ls[1..], l)
  }

  /**
   * Removal leaves no equal entry, keeps every other entry and only entries that
   * were there, and is the identity when there is nothing to remove.
   */
  lemma {:induction false} RemoveSpec(ls: seq<Listener>, l: Listener)
    ensures l !in Remove(ls, l)
    ensures forall i :: 0 <= i < |Remove(ls, l)| ==> Remove(ls, l)[i] in ls
    ensures forall i :: 0 <= i < |ls| && ls[i] != l ==> ls[i] in Remove(ls, l)
    ensures l !in ls ==> Remove(ls, l) == ls
    decreases |ls|
  {
    if ls != [] {
      RemoveSpec(ls[1..], l);
      assert ls == [ls[0]] + ls[1..];
      forall i | 0 <= i < |ls| && ls[i] != l
        ensures ls[i] in Remove(ls, l)
      {
        if i > 0 {
          assert ls[i] == ls[1..][i - 1];
        }
      }
    }
  }

  /**
   * On a duplicate-free list, removing an entry cuts exactly that entry out and
   * keeps the others in their order.
   */
  lemma RemoveMiddle(pre: seq<Listener>, l: Listener, post: seq<Listener>)
    requires NoDuplicates(pre + [l] + post)
    ensures Remove(pre + [l] + post, l) == pre + post
  {
    var ls := pre + [l] + post;
    assert l !in pre by {
      forall i | 0 <= i < |pre| ensures pre[i] != l {
        assert ls[i] == pre[i] && ls[|pre|] == l;
      }
    }
    assert l !in post by {
      forall i | 0 <= i < |post| ensures post[i] != l {
        assert ls[|pre| + 1 + i] == post[i] && ls[|pre|] == l;
      }
    }
    assert ls == pre + ([l] + post);
    RemoveAppended(pre, [l] + post, l);
    assert ([l] + post)[1..] == post;
    RemoveSpec(post, l);
  }

  /** Removing an entry that was appended after `pre` leaves `pre` intact. */
  lemma {:induction false} RemoveAppended(pre: seq<Listener>, extra: seq<Listener>, l: Listener)
    requires l !in pre
    ensures Remove(pre + extra, l) == pre + Remove(extra, l)
    decreases |pre|
  {
    if pre == [] {
      assert pre + extra == extra;
    } else {
      var p := pre + extra;
      assert pre[0] in pre;
      assert pre == [pre[0]] + pre[1..];
      assert p[0] == pre[0] && p[1..] == pre[1..] + extra;
      RemoveAppended(pre[1..], extra, l);
      assert Remove(p, l) == [pre[0]] + Remove(p[1..], l);
      assert [pre[0]] + (pre[1..] + Remove(extra, l)) == pre + Remove(extra, l);
    }
  }

  predicate NoDuplicates(ls: seq<Listener>) {
    forall i, j :: 0 <= i < j < |ls| ==> ls[i] != ls[j]
  }

  /** The callbacks one event of type `t` causes on a target with listener list `ls`, in list order. */
  function Dispatch(ls: seq<Listener>, t: EventType, ctx: EventContext): (calls: seq<Violation>)
    ensures |calls| <= |ls|
    decreases |ls|
  {
    if ls == [] then []
    else (if ls[0].eventType == t then Invoke(ls[0].callback, ctx) else []) + Dispatch(ls[1..], t, ctx)
  }

  lemma {:induction false} DispatchAppend(a: seq<Listener>, b: seq<Listener>, t: EventType, ctx: EventContext)
    ensures Dispatch(a + b, t, ctx) == Dispatch(a, t, ctx) + Dispatch(b, t, ctx)
    decreases |a|
  {
    if a == [] {
      assert a + b == b;
    } else {
      assert (a + b)[0] == a[0];
      assert (a + b)[1..] == a[1..] + b;
      DispatchAppend(a[1..], b, t, ctx);
    }
  }

  /** A DOM event target: `window` or `document`. */
  class EventTarget {
    var listeners: seq<Listener>

    ghost predicate Valid()
      reads this
    {
      NoDuplicates(listeners)
    }

    constructor ()
      ensures Valid() && listeners == []
    {
      listeners := [];
    }

    /** Appends the listener unless an equal one is already registered. */
    method AddEventListener(t: EventType, callback: Closure)
      requires Valid()
      modifies this
      ensures Valid()
      ensures listeners == if Listener(t, callback) in old(listeners) then old(listeners)
                           else old(listeners) + [Listener(t, callback)]
    {
      var l := Listener(t, callback);
      if l !in listeners {
        listeners := listeners + [l];
      }
    }

    /** Takes out the equal listener, if there is one. */
    method RemoveEventListener(t: EventType, callback: Closure)
      requires Valid()
      modifies this
      ensures Valid()
      ensures listeners == Remove(old(listeners), Listener(t, callback))
    {
      listeners := Remove(listeners, Listener(t, callback));
      assert NoDuplicates(listeners) by { RemoveKeepsNoDuplicates(old(listeners), Listener(t, callback)); }
    }
  }

  lemma {:induction false} RemoveKeepsNoDuplicates(ls: seq<Listener>, l: Listener)
    requires NoDuplicates(ls)
    ensures NoDuplicates(Remove(ls, l))
    decreases |ls|
  {
    if ls != [] {
      RemoveKeepsNoDuplicates(ls[1..], l);
      RemoveSpec(ls[1..], l);
      if ls[0] != l {
        assert ls[0] !in ls[1..];
        assert ls[0] !in Remove(ls[1..], l);
      }
    }
  }

  /** The three closures of one run of the effect; its cleanup removes the same three. */
  datatype Subscription = Subscription(visibility: Closure, blur: Closure, keydown: Closure) {
    /** Built by one run of the effect with the given `onViolation` presence. */
    predicate Of(hasCallback: bool) {
      && visibility.handler == VisibilityHandler && blur.handler == BlurHandler
      && keydown.handler == KeyDownHandler
      && visibility.hasCallback == hasCallback && blur.hasCallback == hasCallback
      && keydown.hasCallback == hasCallback
    }

    function WindowListeners(): seq<Listener> {
      [Listener(Blur, blur), Listener(KeyDown, keydown)]
    }

    function DocumentListeners(): seq<Listener> {
      [Listener(VisibilityChange, visibility)]
    }
  }

  /** The effect body: creates the three handlers and registers them, blur and keydown on `window`, visibilitychange on `document`. */
  method Setup(window: EventTarget, document: EventTarget, hasCallback: bool) returns (sub: Subscription)
    requires window != document && window.Valid() && document.Valid()
    modifies window, document
    ensures window.Valid() && document.Valid()
    ensures sub.Of(hasCallback)
    ensures fresh(sub.visibility) && fresh(sub.blur) && fresh(sub.keydown)
    ensures window.listeners == old(window.listeners) + sub.WindowListeners()
    ensures document.listeners == old(document.listeners) + sub.DocumentListeners()
  {
    var visibility := new Closure(VisibilityHandler, hasCallback);
    var blur := new Closure(BlurHandler, hasCallback);
    var keydown := new Closure(KeyDownHandler, hasCallback);
    sub := Subscription(visibility, blur, keydown);
    window.AddEventListener(Blur, blur);
    document.AddEventListener(VisibilityChange, visibility);
    window.AddEventListener(KeyDown, keydown);
  }

  /** The cleanup the effect returns: removes the three listeners it added. */
  method Teardown(window: EventTarget, document: EventTarget, sub: Subscription)
    requires window != document && window.Valid() && document.Valid()
    modifies window, document
    ensures window.Valid() && document.Valid()
    ensures window.listeners ==
            Remove(Remove(old(window.listeners), Listener(Blur, sub.blur)), Listener(KeyDown, sub.keydown))
    ensures document.listeners == Remove(old(document.listeners), Listener(VisibilityChange, sub.visibility))
  {
    window.RemoveEventListener(Blur, sub.blur);
    document.RemoveEventListener(VisibilityChange, sub.visibility);
    window.RemoveEventListener(KeyDown, sub.keydown);
  }

  /**
   * Cleanup undoes setup: removing a subscription's listeners from the lists
   * setup produced gives back the lists as they were before setup.
   */
  lemma TeardownRestores(preWindow: seq<Listener>, preDocument: seq<Listener>, sub: Subscription)
    requires Listener(Blur, sub.blur) !in preWindow && Listener(KeyDown, sub.keydown) !in preWindow
    requires Listener(VisibilityChange, sub.visibility) !in preDocument
    ensures Remove(Remove(preWindow + sub.WindowListeners(), Listener(Blur, sub.blur)), Listener(KeyDown, sub.keydown))
            == preWindow
    ensures Remove(preDocument + sub.DocumentListeners(), Listener(VisibilityChange, sub.visibility)) == preDocument
  {
    var b, k, v := Listener(Blur, sub.blur), Listener(KeyDown, sub.keydown), Listener(VisibilityChange, sub.visibility);
    RemoveAppended(preWindow, sub.WindowListeners(), b);
    assert [b, k][1..] == [k] && [k][1..] == [];
    assert Remove([k], b) == [k];
    assert Remove([b, k], b) == [k];
    RemoveAppended(preWindow, [k], k);
    assert Remove([k], k) == [];
    assert preWindow + [] == preWindow;
    RemoveAppended(preDocument, sub.DocumentListeners(), v);
    assert Remove([v], v) == [];
    assert preDocument + [] == preDocument;
  }

  /**
   * With one subscription registered, an event of any type produces at most one
   * callback in total, and it is the classifier's verdict when `onViolation` is defined.
   */
  lemma OneEventOneReport(sub: Subscription, hasCallback: bool, t: EventType, ctx: EventContext)
    requires sub.Of(hasCallback)
    ensures var calls := Dispatch(sub.WindowListeners(), t, ctx) + Dispatch(sub.DocumentListeners(), t, ctx);
      && |calls| <= 1
      && (!hasCallback ==> calls == [])
      && (hasCallback ==> calls == match Classify(HandlerFor(t), ctx) case Some(v) => [v] case None => [])
  {
    assert sub.WindowListeners()[1..] == [Listener(KeyDown, sub.keydown)];
    assert sub.WindowListeners()[1..][1..] == [];
    assert sub.DocumentListeners()[1..] == [];
  }

  /**
   * Whatever else is registered, mounting the hook adds at most one callback to
   * the ones an event already caused.
   */
  lemma HookAddsAtMostOneReport(preWindow: seq<Listener>, preDocument: seq<Listener>, sub: Subscription,
                                hasCallback: bool, t: EventType, ctx: EventContext)
    requires sub.Of(hasCallback)
    ensures var before := Dispatch(preWindow, t, ctx) + Dispatch(preDocument, t, ctx);
            var after := Dispatch(preWindow + sub.WindowListeners(), t, ctx)
                         + Dispatch(preDocument + sub.DocumentListeners(), t, ctx);
            |before| <= |after| <= |before| + 1
  {
    DispatchAppend(preWindow, sub.WindowListeners(), t, ctx);
    DispatchAppend(preDocument, sub.DocumentListeners(), t, ctx);
    OneEventOneReport(sub, hasCallback, t, ctx);
  }

  /** The handler the effect registers for each event type. */
  function HandlerFor(t: EventType): (h: Handler)
    ensures h.Registers() == t
  {
    match t
    case Blur => BlurHandler
    case VisibilityChange => VisibilityHandler
    case KeyDown => KeyDownHandler
  }

  /**
   * One mount and unmount of the hook: setup registers exactly three listeners
   * and the cleanup leaves both targets' listener lists as they were before.
   */
  method MountThenUnmount(window: EventTarget, document: EventTarget, hasCallback: bool)
    requires window != document && window.Valid() && document.Valid()
    modifies window, document
    ensures window.Valid() && document.Valid()
    ensures window.listeners == old(window.listeners) && document.listeners == old(document.listeners)
  {
    ghost var preWindow, preDocument := window.listeners, document.listeners;
    var sub := Setup(window, document, hasCallback);
    Teardown(window, document, sub);
    TeardownRestores(preWindow, preDocument, sub);
  }
}
