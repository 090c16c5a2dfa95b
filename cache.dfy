/**
 * Model of org.xnap.commons.i18n.I18nCache: for each package name, the list of I18n instances
 * created for it, one per locale as far as the factory is concerned, in insertion order.
 */
module Cache {
  import opened Wrappers
  import opened Bundles
  import opened Translator

  /** The first instance of `s` whose locale is `l` (`Locale.equals` is false for a null locale). */
  function FirstWithLocale(s: seq<I18n>, l: Locale): (r: Option<I18n>)
    reads set x | x in s
    ensures r.Some? ==> r.value in s && r.value.locale == Some(l)
    ensures r.None? <==> forall i :: 0 <= i < |s| ==> s[i].locale != Some(l)
    ensures r.Some? ==> exists i :: 0 <= i < |s| && s[i] == r.value && forall j :: 0 <= j < i ==> s[j].locale != Some(l)
  {
    if |s| == 0 then None
    else if s[0].locale == Some(l) then Some(s[0])
    else
      var r := FirstWithLocale(s[1..], l);
      assert forall i :: 1 <= i < |s| ==> s[i] == s[1..][i - 1];
      r
  }

  /** The list `m` holds for `pkg`, empty when there is none. */
  function ListIn(m: map<string, seq<I18n>>, pkg: string): seq<I18n>
  {
    if pkg in m then m[pkg] else []
  }

  /** Every instance held in `m`. */
  ghost function Instances(m: map<string, seq<I18n>>): set<I18n>
  {
    set k, x | k in m && x in m[k] :: x
  }

  /** The lists of `m` for the keys of `order`, one after the other. */
  function Flatten(m: map<string, seq<I18n>>, order: seq<string>): seq<I18n>
    requires forall k :: k in order ==> k in m
  {
    if |order| == 0 then [] else m[order[0]] + Flatten(m, order[1..])
  }

  lemma {:induction false} FlattenSnoc(m: map<string, seq<I18n>>, order: seq<string>, k: string)
    requires forall k' :: k' in order ==> k' in m
    requires k in m
    ensures Flatten(m, order + [k]) == Flatten(m, order) + m[k]
  {
    if |order| > 0 {
      assert (order + [k])[1..] == order[1..] + [k];
      FlattenSnoc(m, order[1..], k);
    }
  }

  /** An instance is in the flattening exactly when one of the visited lists holds it. */
  lemma {:induction false} FlattenMembers(m: map<string, seq<I18n>>, order: seq<string>, x: I18n)
    requires forall k :: k in order ==> k in m
    ensures x in Flatten(m, order) <==> exists k :: k in order && x in m[k]
  {
    if |order| > 0 {
      FlattenMembers(m, order[1..], x);
      assert forall k :: k in order <==> k == order[0] || k in order[1..];
    }
  }

  class I18nCache {
    /** `i18nByPackage`: package name to the instances created for it. */
    var byPackage: map<string, seq<I18n>>

    constructor ()
      ensures byPackage == map[]
    {
      byPackage := map[];
    }

    /** The list stored for `pkg`, empty when there is none. */
    function ListOf(pkg: string): seq<I18n>
      reads this
    {
      ListIn(byPackage, pkg)
    }

    /** Every instance the cache holds. */
    ghost function Objects(): set<I18n>
      reads this
    {
      Instances(byPackage)
    }

    /** `clear()`. */
    method Clear()
      modifies this
      ensures byPackage == map[]
    {
      byPackage := map[];
    }

    /**
     * `get(packageName, locale)`: the first instance stored for the package whose locale equals
     * `locale`, or none; a null locale is refused.
     */
    method Get(pkg: string, l: Option<Locale>) returns (r: Result<Option<I18n>, JavaException>)
      ensures l.None? ==> r == Err(NullPointerException)
      ensures l.Some? ==> r == Ok(FirstWithLocale(ListOf(pkg), l.value))
    {
      if l.None? {
        return Err(NullPointerException);
      }
      if pkg !in byPackage {
        return Ok(None);
      }
      var list := byPackage[pkg];
      var i := 0;
      while i < |list|
        invariant 0 <= i <= |list|
        invariant FirstWithLocale(list[i..], l.value) == FirstWithLocale(list, l.value)
      {
        if list[i].locale == Some(l.value) {
          return Ok(Some(list[i]));
        }
        assert list[i..][1..] == list[i + 1..];
        i := i + 1;
      }
      r := Ok(None);
    }

    /** `put(packageName, i18n)`: appends to the package's list, creating it when needed; no duplicate check. */
    method Put(pkg: string, x: I18n)
      modifies this
      ensures byPackage == old(byPackage)[pkg := old(ListOf(pkg)) + [x]]
    {
      var list := if pkg in byPackage then byPackage[pkg] else [];
      byPackage := byPackage[pkg := list + [x]];
    }

    /**
     * `visit(visitor)`: snapshots the lists, then hands every instance of every list to the
     * visitor. The answer is the order of the packages (that of the map's values, which the
     * source leaves unspecified) and the instances in the order the visitor sees them.
     */
    method Visit() returns (order: seq<string>, visited: seq<I18n>)
      ensures forall i, j :: 0 <= i < j < |order| ==> order[i] != order[j]
      ensures forall k :: k in order <==> k in byPackage
      ensures visited == Flatten(byPackage, order)
      ensures forall x :: x in visited <==> x in Objects()
    {
      var rest := byPackage.Keys;
      order := [];
      while rest != {}
        invariant forall k :: k in byPackage <==> k in rest || k in order
        invariant forall k :: k in order ==> k !in rest
        invariant forall i, j :: 0 <= i < j < |order| ==> order[i] != order[j]
        decreases |rest|
      {
        var k :| k in rest;
        order := order + [k];
        rest := rest - {k};
      }
      visited := [];
      var i := 0;
      while i < |order|
        invariant 0 <= i <= |order|
        invariant visited == Flatten(byPackage, order[..i])
      {
        var list := byPackage[order[i]];
        var j := 0;
        while j < |list|
          invariant 0 <= j <= |list|
          invariant visited == Flatten(byPackage, order[..i]) + list[..j]
        {
          visited := visited + [list[j]];
          assert list[..j + 1] == list[..j] + [list[j]];
          j := j + 1;
        }
        assert list[..j] == list;
        FlattenSnoc(byPackage, order[..i], order[i]);
        assert order[..i + 1] == order[..i] + [order[i]];
        i := i + 1;
      }
      assert order[..i] == order;
      forall x
        ensures x in visited <==> x in Objects()
      {
        FlattenMembers(byPackage, order, x);
      }
    }
  }

  /** Appending never changes what `get` finds once an earlier instance matches: the first one stays. */
  lemma {:induction false} FirstWithLocaleAppend(s: seq<I18n>, x: I18n, l: Locale)
    ensures FirstWithLocale(s + [x], l) ==
              if FirstWithLocale(s, l).Some? then FirstWithLocale(s, l)
              else if x.locale == Some(l) then Some(x) else None
  {
    if |s| > 0 {
      assert (s + [x])[1..] == s[1..] + [x];
      FirstWithLocaleAppend(s[1..], x, l);
    } else {
      assert [x][1..] == [];
    }
  }

  /**
   * Two instances for one locale stored under one package: `get` answers the earlier one and
   * refuses a null locale; after `clear` it answers nothing.
   */
  method PutTwiceThenClear(a: I18n, b: I18n, l: Locale)
    returns (found: Option<I18n>, refused: Result<Option<I18n>, JavaException>, afterClear: Option<I18n>)
    requires a.locale == Some(l) && b.locale == Some(l)
    ensures found == Some(a) && refused == Err(NullPointerException) && afterClear == None
  {
    var cache := new I18nCache();
    cache.Put("p", a);
    cache.Put("p", b);
    assert cache.ListOf("p") == [a, b];
    var g := cache.Get("p", Some(l));
    found := g.value;
    refused := cache.Get("p", None);
    cache.Clear();
    var h := cache.Get("p", Some(l));
    afterClear := h.value;
  }
}
