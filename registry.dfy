/**
  The handler registry's removal rule: `removeHandler` deletes the first
  registered handler that `isEqual` considers equal to its argument.
  ExchangerBase compares by identity (`===`); Exchanger overrides this to
  compare the `type` and `origin` properties, so that `off(type, fn)` can
  remove what `on(type, fn)` registered.
*/
module Registry {
  import opened Values
  import opened Dispatch

  /** The `type` and `origin` properties of a handler-like object (None for undefined). */
  datatype Key = Key(msgType: Option<string>, origin: Option<Ref>)

  /** What `removeHandler` is given, seen through the equality rule in force. */
  datatype Probe =
    | ByIdentity(target: Handler)  // ExchangerBase.isEqual
    | ByKey(key: Key)              // Exchanger.isEqual

  /** The `type` and `origin` properties: only handlers registered by `on` carry them. */
  function KeyOf(h: Handler): (k: Key)
    ensures k.msgType.Some? <==> h.OnHandler?
    ensures k.origin.Some? <==> h.OnHandler?
    ensures h.OnHandler? ==> k == Key(Some(h.msgType), Some(h.origin))
  {
    match h
    case OnHandler(t, fn) => Key(Some(t), Some(fn))
    case _ => Key(None, None)
  }

  /**
    `isEqual(h, probe)`. Handlers are values here, so identity is equality
    of the handler: a bare function is compared by its reference and an
    object by its `self` reference and fields.
  */
  predicate IsEqual(h: Handler, p: Probe)
    ensures p.ByIdentity? ==> (IsEqual(h, p) <==> h == p.target)
    ensures p.ByKey? && h.OnHandler? ==> (IsEqual(h, p) <==> p.key == Key(Some(h.msgType), Some(h.origin)))
    ensures p.ByKey? && !h.OnHandler? ==> (IsEqual(h, p) <==> p.key == Key(None, None))
  {
    match p
    case ByIdentity(x) => h == x
    case ByKey(k) => KeyOf(h) == k
  }

  /** The position `removeHandler` looks up: the first handler equal to the probe, or -1. */
  function FindIndex(hs: seq<Handler>, p: Probe): (i: int)
    ensures -1 <= i < |hs|
    ensures i == -1 <==> forall j | 0 <= j < |hs| :: !IsEqual(hs[j], p)
    ensures 0 <= i ==> IsEqual(hs[i], p) && forall j | 0 <= j < i :: !IsEqual(hs[j], p)
  {
    if hs == [] then -1
    else if IsEqual(hs[0], p) then 0
    else
      var i := FindIndex(hs[1..], p);
      if i == -1 then -1 else i + 1
  }

  /**
    The registry after `removeHandler(probe)`: unchanged when no handler
    is equal, otherwise the first equal handler is taken out and the
    others keep their order.
  */
  function Removed(hs: seq<Handler>, p: Probe): (r: seq<Handler>)
    ensures r == hs <==> FindIndex(hs, p) == -1
    ensures r != hs ==> |r| == |hs| - 1
  {
    var i := FindIndex(hs, p);
    if i == -1 then hs else hs[..i] + hs[i + 1..]
  }

  /** What `removeHandler` does to the registry, stated without FindIndex. */
  lemma RemovedSpec(hs: seq<Handler>, p: Probe)
    ensures (forall j | 0 <= j < |hs| :: !IsEqual(hs[j], p)) ==> Removed(hs, p) == hs
    ensures (exists j | 0 <= j < |hs| :: IsEqual(hs[j], p)) ==>
      |Removed(hs, p)| == |hs| - 1 &&
      exists i | 0 <= i < |hs| :: IsEqual(hs[i], p) && (forall j | 0 <= j < i :: !IsEqual(hs[j], p)) && Removed(hs, p) == hs[..i] + hs[i + 1..]
  {
  }

  /** Appending a handler equal to the probe moves the first equal position only when there was none. */
  lemma {:induction false} FindIndexAppend(hs: seq<Handler>, x: Handler, p: Probe)
    requires IsEqual(x, p)
    ensures FindIndex(hs + [x], p) == if FindIndex(hs, p) == -1 then |hs| else FindIndex(hs, p)
  {
    var hx := hs + [x];
    if hs == [] {
      assert hx == [x];
    } else {
      assert hx[0] == hs[0] && hx[1..] == hs[1..] + [x];
      FindIndexAppend(hs[1..], x, p);
    }
  }

  /** Removing by an equal probe right after appending it returns the registry to what it was when no older entry is equal. */
  lemma RemovedAfterAppendFresh(hs: seq<Handler>, x: Handler, p: Probe)
    requires IsEqual(x, p)
    requires forall j | 0 <= j < |hs| :: !IsEqual(hs[j], p)
    ensures Removed(hs + [x], p) == hs
  {
    FindIndexAppend(hs, x, p);
    var hx := hs + [x];
    assert FindIndex(hx, p) == |hs|;
    assert hx[..|hs|] == hs;
  }

  /** When an older entry is equal, that entry is removed instead and the new one stays at the end. */
  lemma RemovedAfterAppendOlder(hs: seq<Handler>, x: Handler, p: Probe)
    requires IsEqual(x, p)
    requires exists j | 0 <= j < |hs| :: IsEqual(hs[j], p)
    ensures Removed(hs + [x], p) == Removed(hs, p) + [x]
  {
    FindIndexAppend(hs, x, p);
    SlicesOfAppend(hs, x, FindIndex(hs, p));
  }

  /** Cutting `hs + [x]` at a position inside `hs`. */
  lemma SlicesOfAppend(hs: seq<Handler>, x: Handler, i: int)
    requires 0 <= i < |hs|
    ensures (hs + [x])[..i] == hs[..i]
    ensures (hs + [x])[i + 1..] == hs[i + 1..] + [x]
  {
  }

  /**
    When the probe is equal to `x` alone (identity, or the key of an `on`
    handler), add-then-remove keeps the same handlers with the same
    multiplicities, though an older equal entry gives up its place.
  */
  lemma SameHandlersAfterAppendRemove(hs: seq<Handler>, x: Handler, p: Probe)
    requires p == ByIdentity(x) || (x.OnHandler? && p == ByKey(KeyOf(x)))
    ensures multiset(Removed(hs + [x], p)) == multiset(hs)
  {
    var i := FindIndex(hs, p);
    if i == -1 {
      RemovedAfterAppendFresh(hs, x, p);
    } else {
      RemovedAfterAppendOlder(hs, x, p);
      EqualOnlyToItself(hs[i], x, p);
      assert Removed(hs + [x], p) == hs[..i] + hs[i + 1..] + [hs[i]];
      MovedToEnd(hs, i);
    }
  }

  /** A probe that identifies `x` (by identity, or by the key of an `on` handler) is equal to `x` alone. */
  lemma EqualOnlyToItself(h: Handler, x: Handler, p: Probe)
    requires p == ByIdentity(x) || (x.OnHandler? && p == ByKey(KeyOf(x)))
    ensures IsEqual(h, p) <==> h == x
  {
  }

  /** Moving one handler to the end keeps the multiset of handlers. */
  lemma MovedToEnd(hs: seq<Handler>, i: int)
    requires 0 <= i < |hs|
    ensures multiset(hs[..i] + hs[i + 1..] + [hs[i]]) == multiset(hs)
  {
    assert hs == hs[..i] + [hs[i]] + hs[i + 1..];
  }

  /** The key of `on(type, fn)` is equal to that handler and to no other. */
  lemma OnKeyIsExact(t: string, fn: Ref, h: Handler)
    ensures IsEqual(h, ByKey(Key(Some(t), Some(fn)))) <==> h == OnHandler(t, fn)
  {
  }

  /**
    `off` straight after `on` does not always restore the registry: an
    older registration of the same pair is removed instead, and the new
    one stays at the end.
  */
  lemma OffAfterOnMayReorder()
    ensures var hs := [OnHandler("a", 1), OnHandler("b", 2)];
      Removed(hs + [OnHandler("a", 1)], ByKey(Key(Some("a"), Some(1)))) == [OnHandler("b", 2), OnHandler("a", 1)] != hs
  {
    var hs := [OnHandler("a", 1), OnHandler("b", 2)];
    assert IsEqual(hs[0], ByKey(Key(Some("a"), Some(1))));
    RemovedAfterAppendOlder(hs, OnHandler("a", 1), ByKey(Key(Some("a"), Some(1))));
    assert FindIndex(hs, ByKey(Key(Some("a"), Some(1)))) == 0;
  }

  /**
    On an Exchanger, `removeHandler(f)` for a bare function `f` compares
    only the (undefined) `type` and `origin` properties, so it removes the
    first handler registered without `on`, whichever function that is.
  */
  lemma RemoveByKeyIgnoresIdentity(f: Ref, g: Ref)
    requires f != g
    ensures Removed([FnHandler(f), FnHandler(g)], ByKey(KeyOf(FnHandler(g)))) == [FnHandler(g)]
    ensures Removed([FnHandler(f), FnHandler(g)], ByIdentity(FnHandler(g))) == [FnHandler(f)]
  {
    assert FindIndex([FnHandler(f), FnHandler(g)], ByKey(KeyOf(FnHandler(g)))) == 0;
    var hs := [FnHandler(f), FnHandler(g)];
    assert hs[1..] == [FnHandler(g)];
    assert FindIndex(hs[1..], ByIdentity(FnHandler(g))) == 0;
    assert FindIndex(hs, ByIdentity(FnHandler(g))) == 1;
  }
}
