/**
 * Model of org.xnap.commons.i18n.I18nManager: the registry of the I18n instances the factory
 * created, which changes their locale all at once and tells the registered locale-change
 * listeners about it, plus the weak wrapper that lets a listener be garbage collected.
 */
module Manager {
  import opened Wrappers
  import opened Bundles
  import opened Translator
  import opened Sequences

  /** The identity of a LocaleChangeListener object; what it does when notified is not modelled. */
  datatype ListenerId = ListenerId(id: nat)

  /** A LocaleChangeEvent as far as the core fills it in: the new locale. */
  datatype LocaleChangeEvent = LocaleChangeEvent(newLocale: Locale)

  /** One call of `localeChanged(event)` on a listener the manager does not own. */
  datatype Delivery = Delivery(listener: ListenerId, event: LocaleChangeEvent)

  /** An element of the listener list: a listener itself, or the weak wrapper made for it. */
  datatype Registration = Direct(listener: ListenerId) | Weak(wrapper: WeakLocaleChangeListener)

  ghost function WrappersOf(s: seq<Registration>): set<WeakLocaleChangeListener>
  {
    set r | r in s && r.Weak? :: r.wrapper
  }

  /** The referent of each weak wrapper at one moment. */
  type Referents = map<WeakLocaleChangeListener, Option<ListenerId>>

  /** The current referents of the wrappers registered in `s`. */
  ghost function ReferentsOf(s: seq<Registration>): Referents
    reads WrappersOf(s)
  {
    map w | w in WrappersOf(s) :: w.referent
  }

  /** A registration that still leads to a listener: a direct one, or a weak one whose referent is alive. */
  predicate Live(r: Registration, refs: Referents)
  {
    r.Direct? || (r.wrapper in refs && refs[r.wrapper].Some?)
  }

  /** The registrations of `s` that are live, in order: what a notification round leaves registered. */
  function Prune(s: seq<Registration>, refs: Referents): seq<Registration>
  {
    if |s| == 0 then []
    else (if Live(s[0], refs) then [s[0]] else []) + Prune(s[1..], refs)
  }

  /** The calls of `localeChanged` made when `s` is walked front to back. */
  function Notify(s: seq<Registration>, refs: Referents, e: LocaleChangeEvent): seq<Delivery>
  {
    if |s| == 0 then []
    else
      (match s[0]
       case Direct(id) => [Delivery(id, e)]
       case Weak(w) => if w in refs && refs[w].Some? then [Delivery(refs[w].value, e)] else []) +
      Notify(s[1..], refs, e)
  }

  /** No weak wrapper is registered twice (each `addWeakLocaleChangeListener` makes a new one). */
  ghost predicate WeakOnce(s: seq<Registration>)
  {
    forall r :: r in s && r.Weak? ==> multiset(s)[r] == 1
  }

  /**
   * A wrapper that holds its listener through a weak reference. The referent becomes null when
   * the listener is garbage collected; `Collect` stands for that.
   */
  class WeakLocaleChangeListener {
    var referent: Option<ListenerId>

    constructor (listener: ListenerId)
      ensures referent == Some(listener)
    {
      referent := Some(listener);
    }

    /** The garbage collector clears the reference. */
    method Collect()
      modifies this
      ensures referent == None
    {
      referent := None;
    }

    /**
     * `localeChanged(event)`: forwards the event to the listener while it is alive; otherwise
     * unregisters this wrapper from the manager.
     */
    method LocaleChanged(m: I18nManager, e: LocaleChangeEvent) returns (d: Option<Delivery>)
      modifies m
      ensures referent.Some? ==> d == Some(Delivery(referent.value, e)) && m.listeners == old(m.listeners)
      ensures referent.None? ==> d == None && m.listeners == RemoveFirst(old(m.listeners), Weak(this))
      ensures m.i18ns == old(m.i18ns)
    {
      if referent.Some? {
        return Some(Delivery(referent.value, e));
      }
      m.RemoveLocaleChangeListener(Weak(this));
      d := None;
    }
  }

  class I18nManager {
    /** The managed I18n instances, in the order they were added. */
    var i18ns: seq<I18n>
    /** `localeChangeListeners`, in the order they were added. */
    var listeners: seq<Registration>

    ghost predicate Valid()
      reads this
    {
      WeakOnce(listeners)
    }

    constructor ()
      ensures i18ns == [] && listeners == [] && Valid()
    {
      i18ns, listeners := [], [];
    }

    /** `add(i18n)`: appends, without checking for duplicates. */
    method Add(x: I18n)
      modifies this
      ensures i18ns == old(i18ns) + [x] && listeners == old(listeners)
    {
      i18ns := i18ns + [x];
    }

    /** `remove(i18n)`: drops the first occurrence. */
    method Remove(x: I18n)
      modifies this
      ensures i18ns == RemoveFirst(old(i18ns), x) && listeners == old(listeners)
    {
      i18ns := RemoveFirst(i18ns, x);
    }

    /** `remove(i18n)` for each element of `xs` in turn: one occurrence goes per element. */
    method RemoveEach(xs: seq<I18n>)
      modifies this
      ensures i18ns == RemoveAll(old(i18ns), xs) && listeners == old(listeners)
      ensures multiset(i18ns) == multiset(old(i18ns)) - multiset(xs)
    {
      ghost var start := i18ns;
      var i := 0;
      while i < |xs|
        invariant 0 <= i <= |xs|
        invariant i18ns == RemoveAll(start, xs[..i])
        invariant listeners == old(listeners)
      {
        assert xs[..i + 1][..i] == xs[..i];
        i18ns := RemoveFirst(i18ns, xs[i]);
        i := i + 1;
      }
      assert xs[..i] == xs;
      RemoveAllMultiset(start, xs);
    }

    /** `addLocaleChangeListener(listener)`. */
    method AddLocaleChangeListener(listener: ListenerId)
      modifies this
      requires Valid()
      ensures Valid()
      ensures listeners == old(listeners) + [Direct(listener)] && i18ns == old(i18ns)
    {
      listeners := listeners + [Direct(listener)];
    }

    /** `addWeakLocaleChangeListener(listener)`: registers a new wrapper around the listener. */
    method AddWeakLocaleChangeListener(listener: ListenerId) returns (w: WeakLocaleChangeListener)
      modifies this
      requires Valid()
      ensures Valid()
      ensures fresh(w) && w.referent == Some(listener)
      ensures listeners == old(listeners) + [Weak(w)] && i18ns == old(i18ns)
    {
      w := new WeakLocaleChangeListener(listener);
      assert Weak(w) !in listeners;
      listeners := listeners + [Weak(w)];
    }

    /** `removeLocaleChangeListener(listener)`: drops the first registration equal to `r`. */
    method RemoveLocaleChangeListener(r: Registration)
      modifies this
      ensures listeners == RemoveFirst(old(listeners), r) && i18ns == old(i18ns)
      ensures old(Valid()) ==> Valid()
    {
      RemoveFirstMultiset(listeners, r);
      listeners := RemoveFirst(listeners, r);
    }

    /** One round of the backward walk: the registration at `snapshot[i - 1]` receives the event. */
    method NotifyAt(snapshot: seq<Registration>, ghost refs: Referents, i: nat, event: LocaleChangeEvent)
      returns (d: seq<Delivery>)
      modifies this
      requires 0 < i <= |snapshot| && WeakOnce(snapshot)
      requires forall j :: 0 <= j < |snapshot| && snapshot[j].Weak? ==> snapshot[j].wrapper in refs
      requires forall w :: w in refs ==> w.referent == refs[w]
      requires listeners == snapshot[..i] + Prune(snapshot[i..], refs)
      ensures listeners == snapshot[..i - 1] + Prune(snapshot[i - 1..], refs) && i18ns == old(i18ns)
      ensures d == Notify([snapshot[i - 1]], refs, event)
      ensures forall w :: w in refs ==> w.referent == refs[w]
    {
      var r := snapshot[i - 1];
      assert [r][1..] == [];
      match r {
        case Direct(id) =>
          KeepLive(snapshot, refs, i);
          d := [Delivery(id, event)];
        case Weak(w) =>
          if w.referent.Some? {
            KeepLive(snapshot, refs, i);
          } else {
            DropDead(snapshot, refs, i);
          }
          var o := w.LocaleChanged(this, event);
          d := if o.Some? then [o.value] else [];
      }
    }

    /**
     * `fireLocaleChangedEvent(newLocale)`: walks a snapshot of the listeners from the last to the
     * first; weak wrappers whose listener is gone unregister themselves on the way.
     */
    method FireLocaleChangedEvent(l: Locale) returns (ds: seq<Delivery>)
      modifies this
      requires Valid()
      ensures Valid()
      ensures ds == Notify(Reverse(old(listeners)), old(ReferentsOf(listeners)), LocaleChangeEvent(l))
      ensures listeners == Prune(old(listeners), old(ReferentsOf(listeners))) && i18ns == old(i18ns)
    {
      var snapshot := listeners;
      ghost var refs := ReferentsOf(snapshot);
      assert forall j :: 0 <= j < |snapshot| && snapshot[j].Weak? ==> snapshot[j].wrapper in refs by {
        assert forall j :: 0 <= j < |snapshot| ==> snapshot[j] in snapshot;
      }
      ds := [];
      if |snapshot| > 0 {
        var event := LocaleChangeEvent(l);
        var i := |snapshot|;
        assert snapshot[i..] == [];
        while i > 0
          invariant 0 <= i <= |snapshot|
          invariant listeners == snapshot[..i] + Prune(snapshot[i..], refs)
          invariant ds == Notify(Reverse(snapshot[i..]), refs, event)
          invariant i18ns == old(i18ns)
          invariant forall w :: w in refs ==> w.referent == refs[w]
        {
          RoundStep(snapshot, refs, i, event);
          var d := NotifyAt(snapshot, refs, i, event);
          ds := ds + d;
          i := i - 1;
        }
      }
      assert snapshot[0..] == snapshot;
      PruneKeepsWeakOnce(snapshot, refs);
    }

    /**
     * `setDefaultLocale(locale)`: calls `setLocale` on every managed instance in order, then
     * notifies the listeners. An exception from `setLocale` ends the call there: later instances
     * keep their locale and no listener hears of it.
     */
    method SetDefaultLocale(l: Locale) returns (r: Result<seq<Delivery>, JavaException>)
      modifies this, i18ns
      requires Valid()
      ensures Valid() && i18ns == old(i18ns)
      ensures r.Ok? <==> forall j :: 0 <= j < |i18ns| ==> SetLocaleSpec(old(i18ns[j].State()), l).Ok?
      ensures r.Ok? ==>
                (forall j :: 0 <= j < |i18ns| ==> SetLocaleSpec(old(i18ns[j].State()), l) == Ok(i18ns[j].State())) &&
                r.value == Notify(Reverse(old(listeners)), old(ReferentsOf(listeners)), LocaleChangeEvent(l)) &&
                listeners == Prune(old(listeners), old(ReferentsOf(listeners)))
      ensures r.Err? ==>
                listeners == old(listeners) &&
                exists k :: 0 <= k < |i18ns| && i18ns[k] !in i18ns[..k] &&
                  SetLocaleSpec(old(i18ns[k].State()), l) == Err(r.error) &&
                  (forall j :: 0 <= j < k ==> SetLocaleSpec(old(i18ns[j].State()), l) == Ok(i18ns[j].State())) &&
                  (forall j :: k <= j < |i18ns| && i18ns[j] !in i18ns[..k] ==> i18ns[j].State() == old(i18ns[j].State()))
    {
      var o := ApplyLocale(l);
      if o.Fail? {
        return Err(o.error);
      }
      var ds := FireLocaleChangedEvent(l);
      r := Ok(ds);
    }

    /**
     * The first half of `setDefaultLocale`: `setLocale(locale)` on every managed instance in
     * order, stopping at the first exception.
     */
    method ApplyLocale(l: Locale) returns (o: Outcome<JavaException>)
      modifies i18ns
      ensures o.Pass? <==> forall j :: 0 <= j < |i18ns| ==> SetLocaleSpec(old(i18ns[j].State()), l).Ok?
      ensures o.Pass? ==>
                forall j :: 0 <= j < |i18ns| ==> SetLocaleSpec(old(i18ns[j].State()), l) == Ok(i18ns[j].State())
      ensures o.Fail? ==>
                exists k :: 0 <= k < |i18ns| && i18ns[k] !in i18ns[..k] &&
                  SetLocaleSpec(old(i18ns[k].State()), l) == Err(o.error) &&
                  (forall j :: 0 <= j < k ==> SetLocaleSpec(old(i18ns[j].State()), l) == Ok(i18ns[j].State())) &&
                  (forall j :: k <= j < |i18ns| && i18ns[j] !in i18ns[..k] ==> i18ns[j].State() == old(i18ns[j].State()))
    {
      var i := 0;
      while i < |i18ns|
        invariant 0 <= i <= |i18ns|
        invariant forall j :: 0 <= j < i ==> SetLocaleSpec(old(i18ns[j].State()), l) == Ok(i18ns[j].State())
        invariant forall j :: i <= j < |i18ns| && i18ns[j] !in i18ns[..i] ==> i18ns[j].State() == old(i18ns[j].State())
      {
        var x := i18ns[i];
        if x in i18ns[..i] {
          var j :| 0 <= j < i && i18ns[j] == x;
          SetLocaleIdempotent(old(x.State()), l);
        }
        var res := x.SetLocale(l);
        if res.Err? {
          assert x !in i18ns[..i];
          assert SetLocaleSpec(old(i18ns[i].State()), l) == Err(res.error);
          return Fail(res.error);
        }
        assert i18ns[..i + 1] == i18ns[..i] + [x];
        i := i + 1;
      }
      o := Pass;
    }
  }

  /**
   * A listener registered directly at most once, and not held by any wrapper, is not notified by
   * the broadcast that follows its removal.
   */
  method RemoveThenFire(m: I18nManager, id: ListenerId, l: Locale) returns (ds: seq<Delivery>)
    modifies m
    requires m.Valid() && multiset(m.listeners)[Direct(id)] <= 1
    requires forall r :: r in m.listeners && r.Weak? ==> r.wrapper.referent != Some(id)
    ensures forall d :: d in ds ==> d.listener != id
  {
    ghost var before := m.listeners;
    m.RemoveLocaleChangeListener(Direct(id));
    ghost var s := m.listeners;
    RemoveFirstMultiset(before, Direct(id));
    assert forall r :: r in s ==> r in before by {
      assert forall r :: r in s ==> multiset(s)[r] > 0;
    }
    assert Direct(id) !in s by {
      assert multiset(s)[Direct(id)] == 0;
    }
    ghost var refs := ReferentsOf(s);
    ds := m.FireLocaleChangedEvent(l);
    forall r | r in Reverse(s)
      ensures r != Direct(id) && !(r.Weak? && r.wrapper in refs && refs[r.wrapper] == Some(id))
    {
      ReverseMembers(s, r);
    }
    NotifyOmits(Reverse(s), refs, LocaleChangeEvent(l), id);
  }

  /**
   * A weak registration whose listener has been collected drops out at the next broadcast: with
   * every earlier wrapper alive, the listener list is back to what it was before the registration.
   */
  method WeakListenerLifecycle(m: I18nManager, id: ListenerId, l: Locale) returns (w: WeakLocaleChangeListener, ds: seq<Delivery>)
    modifies m
    requires m.Valid()
    requires forall r :: r in m.listeners && r.Weak? ==> r.wrapper.referent.Some?
    ensures fresh(w) && w.referent.None?
    ensures m.listeners == old(m.listeners)
  {
    ghost var before := m.listeners;
    w := m.AddWeakLocaleChangeListener(id);
    w.Collect();
    ghost var refs := ReferentsOf(m.listeners);
    ds := m.FireLocaleChangedEvent(l);
    PruneAppend(before, [Weak(w)], refs);
    assert Weak(w) in before + [Weak(w)];
    forall r | r in before
      ensures Live(r, refs)
    {
      assert r in before + [Weak(w)];
    }
    PruneAllLive(before, refs);
    assert [Weak(w)][1..] == [];
  }

  /** A live registration at `s[i - 1]` stays where it is when the walk passes it. */
  lemma KeepLive(s: seq<Registration>, refs: Referents, i: nat)
    requires 0 < i <= |s| && Live(s[i - 1], refs)
    ensures s[..i] + Prune(s[i..], refs) == s[..i - 1] + Prune(s[i - 1..], refs)
  {
    RoundStep(s, refs, i, LocaleChangeEvent(ENGLISH));
  }

  /** A dead weak registration at `s[i - 1]` is the first occurrence of itself, so removing it drops exactly that slot. */
  lemma DropDead(s: seq<Registration>, refs: Referents, i: nat)
    requires 0 < i <= |s| && WeakOnce(s) && s[i - 1].Weak? && !Live(s[i - 1], refs)
    ensures RemoveFirst(s[..i] + Prune(s[i..], refs), s[i - 1]) == s[..i - 1] + Prune(s[i - 1..], refs)
  {
    var pre, x, rest := s[..i - 1], s[i - 1], Prune(s[i..], refs);
    RoundStep(s, refs, i, LocaleChangeEvent(ENGLISH));
    assert Prune(s[i - 1..], refs) == rest;
    assert s[..i] + rest == pre + [x] + rest;
    WeakNotInPrefix(s, i - 1);
    RemoveFirstSplits(pre, x, rest);
  }

  /** One step of the backward walk: what registration `s[i - 1]` adds to the deliveries and to the survivors. */
  lemma RoundStep(s: seq<Registration>, refs: Referents, i: nat, e: LocaleChangeEvent)
    requires 0 < i <= |s|
    ensures s[..i] == s[..i - 1] + [s[i - 1]]
    ensures Prune(s[i - 1..], refs) == (if Live(s[i - 1], refs) then [s[i - 1]] else []) + Prune(s[i..], refs)
    ensures Notify(Reverse(s[i - 1..]), refs, e) == Notify(Reverse(s[i..]), refs, e) + Notify([s[i - 1]], refs, e)
  {
    assert s[i - 1..][1..] == s[i..];
    NotifySnoc(Reverse(s[i..]), refs, s[i - 1], e);
  }

  lemma {:induction false} NotifySnoc(s: seq<Registration>, refs: Referents, r: Registration, e: LocaleChangeEvent)
    ensures Notify(s + [r], refs, e) == Notify(s, refs, e) + Notify([r], refs, e)
  {
    if |s| > 0 {
      assert (s + [r])[1..] == s[1..] + [r];
      NotifySnoc(s[1..], refs, r, e);
    } else {
      assert [r][1..] == [];
    }
  }

  lemma WeakNotInPrefix(s: seq<Registration>, k: nat)
    requires WeakOnce(s) && k < |s| && s[k].Weak?
    ensures s[k] !in s[..k]
  {
    assert s == s[..k] + [s[k]] + s[k + 1..];
    assert multiset(s) == multiset(s[..k]) + multiset{s[k]} + multiset(s[k + 1..]);
  }

  lemma {:induction false} PruneSubMultiset(s: seq<Registration>, refs: Referents)
    ensures multiset(Prune(s, refs)) <= multiset(s)
  {
    if |s| > 0 {
      assert s == [s[0]] + s[1..];
      PruneSubMultiset(s[1..], refs);
    }
  }

  lemma PruneKeepsWeakOnce(s: seq<Registration>, refs: Referents)
    requires WeakOnce(s)
    ensures WeakOnce(Prune(s, refs))
  {
    PruneSubMultiset(s, refs);
  }

  /** A registration survives a notification round exactly when it is live. */
  lemma {:induction false} PruneKeepsLive(s: seq<Registration>, refs: Referents, r: Registration)
    ensures r in Prune(s, refs) <==> r in s && Live(r, refs)
  {
    if |s| > 0 {
      PruneKeepsLive(s[1..], refs, r);
      assert r in s <==> r == s[0] || r in s[1..];
    }
  }

  /** When only direct listeners are registered, every one of them is notified, the last registered first. */
  lemma {:induction false} NotifyDirectInReverse(s: seq<Registration>, refs: Referents, e: LocaleChangeEvent, k: nat)
    requires forall i :: 0 <= i < |s| ==> s[i].Direct?
    requires k < |s|
    ensures |Notify(Reverse(s), refs, e)| == |s|
    ensures Notify(Reverse(s), refs, e)[k] == Delivery(s[|s| - 1 - k].listener, e)
  {
    ReverseLength(s);
    var t := Reverse(s);
    forall i | 0 <= i < |t|
      ensures t[i].Direct?
    {
      ReverseAt(s, i);
    }
    NotifyDirect(t, refs, e, k);
    ReverseAt(s, k);
  }

  lemma {:induction false} NotifyDirect(s: seq<Registration>, refs: Referents, e: LocaleChangeEvent, k: nat)
    requires forall i :: 0 <= i < |s| ==> s[i].Direct?
    requires k < |s|
    ensures |Notify(s, refs, e)| == |s| && Notify(s, refs, e)[k] == Delivery(s[k].listener, e)
  {
    if k > 0 {
      NotifyDirect(s[1..], refs, e, k - 1);
    } else if |s| > 1 {
      NotifyDirect(s[1..], refs, e, 0);
    }
  }

  /** A listener that is neither registered directly nor behind a live wrapper hears nothing. */
  lemma {:induction false} NotifyOmits(s: seq<Registration>, refs: Referents, e: LocaleChangeEvent, id: ListenerId)
    requires forall r :: r in s ==> r != Direct(id) && !(r.Weak? && r.wrapper in refs && refs[r.wrapper] == Some(id))
    ensures forall d :: d in Notify(s, refs, e) ==> d.listener != id
  {
    if |s| > 0 {
      assert s[0] in s;
      assert forall r :: r in s[1..] ==> r in s;
      NotifyOmits(s[1..], refs, e, id);
    }
  }

  lemma {:induction false} PruneAppend(a: seq<Registration>, b: seq<Registration>, refs: Referents)
    ensures Prune(a + b, refs) == Prune(a, refs) + Prune(b, refs)
  {
    if |a| > 0 {
      assert (a + b)[1..] == a[1..] + b;
      PruneAppend(a[1..], b, refs);
    } else {
      assert a + b == b;
    }
  }

  /** Pruning a list whose registrations are all live keeps it whole. */
  lemma {:induction false} PruneAllLive(s: seq<Registration>, refs: Referents)
    requires forall r :: r in s ==> Live(r, refs)
    ensures Prune(s, refs) == s
  {
    if |s| > 0 {
      assert s[0] in s;
      assert forall r :: r in s[1..] ==> r in s;
      PruneAllLive(s[1..], refs);
    }
  }
}
