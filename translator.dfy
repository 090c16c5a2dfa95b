/**
 * Model of org.xnap.commons.i18n.I18n: a translator bound to one resource bundle, with
 * key-as-fallback lookups (`tr`), plural selection (`trn`), context disambiguation (`trc`,
 * `trnc`) and rebinding to another bundle or locale.
 */
module Translator {
  import opened Wrappers
  import opened Bundles

  /** Separates the context from the message in a context-qualified key. */
  const CONTEXT_GLUE: string := "\U{0004}"

  /** The key under which a message is stored for a given context. */
  function ContextKey(context: string, text: string): string
  {
    context + CONTEXT_GLUE + text
  }

  /**
   * What the plural lookup of `trnInternal` finds for `key` and count `n`; None stands for the
   * MissingResourceException it throws. Only the bundle itself is searched for a gettext bundle.
   */
  function PluralLookup(b: Bundle, key: string, n: int): (r: Option<string>)
    ensures b.GettextPlural? ==> (r.Some? <==> key in b.plural)
    ensures b.GettextSimple? ==> r == (if key in b.table then Some(b.table[key]) else None)
    ensures b.Plain? || b.Empty? ==> r == GetString(b, key)
  {
    match b
    case GettextPlural(_, plural, pluralEval, _) =>
      if key !in plural then None
      else (match plural[key]
        case Single(s) => Some(s)
        case Forms(forms) =>
          var i := pluralEval(n);
          Some(if 0 <= i < |forms| then forms[i] else forms[0]))
    case GettextSimple(_, table, _) => if key in table then Some(table[key]) else None
    case _ => GetString(b, key)
  }

  /** The answer of `trn`/`trnc` once the lookup is done: the source text chosen by `n` on a miss. */
  function PluralFallback(found: Option<string>, singular: string, plural: string, n: int): string
  {
    match found
    case Some(s) => s
    case None => if n == 1 then singular else plural
  }

  /**
   * `trnInternal`: a do-while loop over a local bundle variable. Before asking for the parent,
   * the source clears the variable and then invokes `getParent` on it; that call always fails,
   * so the loop stops after the first gettext bundle instead of walking the parent chain.
   */
  method TrnInternal(orgBundle: Bundle, text: string, n: int) returns (r: Option<string>)
    ensures r == PluralLookup(orgBundle, text, n)
  {
    var bundle: Option<Bundle> := Some(orgBundle);
    while bundle.Some?
      invariant bundle.Some? ==> bundle.value == orgBundle
      invariant bundle.None? ==> PluralLookup(orgBundle, text, n).None?
      decreases if bundle.Some? then 1 else 0
    {
      match bundle.value {
        case GettextPlural(_, plural, pluralEval, _) =>
          if text in plural {
            match plural[text] {
              case Single(s) =>
                return Some(s);
              case Forms(forms) =>
                var index := pluralEval(n);
                if !(0 <= index < |forms|) {
                  index := 0;
                }
                return Some(forms[index]);
            }
          }
        case GettextSimple(_, table, _) =>
          if text in table {
            return Some(table[text]);
          }
        case Plain(_, _, _) =>
          return GetString(bundle.value, text);
        case Empty(_) =>
          return GetString(bundle.value, text);
      }
      bundle := None;  // the failed `getParent` call leaves it null
    }
    r := None;
  }

  /** The fields of an I18n object, as one value. */
  datatype TranslatorState = TranslatorState(
    bundle: Bundle,
    sourceCodeLocale: Locale,
    baseName: Option<string>,
    loader: Option<ClassLoader>,
    locale: Option<Locale>)

  /** `setLocale` can reload only when the base name and the class loader are known. */
  predicate Reloadable(s: TranslatorState)
  {
    s.baseName.Some? && s.loader.Some?
  }

  /** The exception `ResourceBundle.getBundle` throws when no bundle is found. */
  function BundleNotFound(baseName: string): JavaException
  {
    MissingResourceException(baseName, "")
  }

  /** The state `setLocale(l)` leaves behind, or the exception it throws (the state is then unchanged). */
  function SetLocaleSpec(s: TranslatorState, l: Locale): Result<TranslatorState, JavaException>
  {
    if Reloadable(s) then
      match s.loader.value.getBundle(s.baseName.value, l)
      case Some(b) => Ok(s.(bundle := b, locale := Some(l)))
      case None => Err(BundleNotFound(s.baseName.value))
    else Ok(s.(locale := Some(l)))
  }

  class I18n {
    var bundle: Bundle
    var sourceCodeLocale: Locale
    var baseName: Option<string>
    var loader: Option<ClassLoader>
    var locale: Option<Locale>

    function State(): TranslatorState
      reads this
    {
      TranslatorState(bundle, sourceCodeLocale, baseName, loader, locale)
    }

    /** `I18n(ResourceBundle)` for a non-null bundle; see NewI18nFromBundle for the null case. */
    constructor FromBundle(b: Bundle)
      ensures State() == TranslatorState(b, ENGLISH, None, None, b.locale)
    {
      bundle, sourceCodeLocale := b, ENGLISH;
      baseName, loader, locale := None, None, b.locale;
    }

    /** `I18n(baseName, locale, loader)` once the bundle has been found; see NewI18n for the failing case. */
    constructor FromLoader(name: string, l: Locale, ld: ClassLoader)
      requires ld.getBundle(name, l).Some?
      ensures State() == TranslatorState(ld.getBundle(name, l).value, ENGLISH, Some(name), Some(ld), Some(l))
    {
      bundle, sourceCodeLocale := ld.getBundle(name, l).value, ENGLISH;
      baseName, loader, locale := Some(name), Some(ld), Some(l);
    }

    /** `setResources(ResourceBundle)`: rebinds to `b` and forgets how to reload. */
    method SetResources(b: Option<Bundle>) returns (r: Outcome<JavaException>)
      modifies this
      ensures b.None? ==> r == Fail(NullPointerException) && State() == old(State())
      ensures b.Some? ==> r == Pass && State() == old(State()).(bundle := b.value, baseName := None, loader := None, locale := b.value.locale)
    {
      if b.None? {
        return Fail(NullPointerException);
      }
      bundle := b.value;
      baseName := None;
      locale := b.value.locale;
      loader := None;
      r := Pass;
    }

    /** `setResources(String, Locale, ClassLoader)`: loads a bundle; on any exception nothing changes. */
    method SetResourcesByName(name: Option<string>, l: Option<Locale>, ld: Option<ClassLoader>) returns (r: Outcome<JavaException>)
      modifies this
      ensures name.None? || l.None? || ld.None? ==> r == Fail(NullPointerException) && State() == old(State())
      ensures name.Some? && l.Some? && ld.Some? && ld.value.getBundle(name.value, l.value).None? ==>
                r == Fail(BundleNotFound(name.value)) && State() == old(State())
      ensures name.Some? && l.Some? && ld.Some? && ld.value.getBundle(name.value, l.value).Some? ==>
                r == Pass &&
                State() == old(State()).(bundle := ld.value.getBundle(name.value, l.value).value,
                                         baseName := name, locale := l, loader := ld)
    {
      if name.None? || l.None? || ld.None? {
        return Fail(NullPointerException);
      }
      var found := ld.value.getBundle(name.value, l.value);
      if found.None? {
        return Fail(BundleNotFound(name.value));
      }
      bundle := found.value;
      baseName := name;
      locale := l;
      loader := ld;
      r := Pass;
    }

    /**
     * `setLocale(l)`: reloads for `l` and answers true when the base name and the loader are
     * known; otherwise only records `l` and answers false. A failed reload throws and changes nothing.
     */
    method SetLocale(l: Locale) returns (r: Result<bool, JavaException>)
      modifies this
      ensures SetLocaleSpec(old(State()), l).Ok? ==>
                r == Ok(Reloadable(old(State()))) && SetLocaleSpec(old(State()), l) == Ok(State())
      ensures SetLocaleSpec(old(State()), l).Err? ==>
                r == Err(SetLocaleSpec(old(State()), l).error) && State() == old(State())
    {
      if baseName.Some? && loader.Some? {
        var o := SetResourcesByName(baseName, Some(l), loader);
        if o.Fail? {
          return Err(o.error);
        }
        return Ok(true);
      }
      locale := Some(l);
      r := Ok(false);
    }

    /** `setSourceCodeLocale(l)`: refuses null. */
    method SetSourceCodeLocale(l: Option<Locale>) returns (r: Outcome<JavaException>)
      modifies this
      ensures l.None? ==> r == Fail(NullPointerException) && State() == old(State())
      ensures l.Some? ==> r == Pass && State() == old(State()).(sourceCodeLocale := l.value)
    {
      if l.None? {
        return Fail(NullPointerException);
      }
      sourceCodeLocale := l.value;
      r := Pass;
    }

    /** `tr(text)`: the bundle's string for `text`, or `text` itself when the bundle has none. */
    function Tr(text: string): (r: string)
      reads this
      ensures r == text || GetString(bundle, text) == Some(r)
      ensures GetString(bundle, text).None? ==> r == text
    {
      match GetString(bundle, text)
      case Some(s) => s
      case None => text
    }

    /** `tr(text, objects)`: `MessageFormat.format` (here the parameter `format`) applied to `tr(text)`. */
    function TrFormat<A>(text: string, args: seq<A>, format: (string, seq<A>) -> string): (r: string)
      reads this
      ensures r == format(Tr(text), args)
    {
      format(Tr(text), args)
    }

    /** `trn(text, pluralText, n)`. */
    method Trn(text: string, pluralText: string, n: int) returns (r: string)
      ensures r == PluralFallback(PluralLookup(bundle, text, n), text, pluralText, n)
    {
      var found := TrnInternal(bundle, text, n);
      r := if found.Some? then found.value else if n == 1 then text else pluralText;
    }

    /** `trn(text, pluralText, n, objects)`: `format` applied to `trn(text, pluralText, n)`. */
    method TrnFormat<A>(text: string, pluralText: string, n: int, args: seq<A>, format: (string, seq<A>) -> string)
      returns (r: string)
      ensures r == format(PluralFallback(PluralLookup(bundle, text, n), text, pluralText, n), args)
    {
      var t := Trn(text, pluralText, n);
      r := format(t, args);
    }

    /**
     * `trc(context, text)`: `text` itself when the bundle's locale is the source-code locale;
     * otherwise the translation of the context key, or `text` when `tr` handed back the key
     * object itself (the source compares references, so a translation that merely equals the
     * key is returned as it is).
     */
    function Trc(context: string, text: string): (r: string)
      reads this
      ensures r == text || GetObject(bundle, ContextKey(context, text)) == Some(Text(r))
      ensures bundle.locale == Some(sourceCodeLocale) ==> r == text
    {
      if Some(sourceCodeLocale) == bundle.locale then text
      else match GetObject(bundle, ContextKey(context, text))
        case Some(Text(s)) => s
        case _ => text
    }

    /** `trnc(context, singularText, pluralText, n)`; the source-code locale plays no part. */
    method Trnc(context: string, singularText: string, pluralText: string, n: int) returns (r: string)
      ensures r == PluralFallback(PluralLookup(bundle, ContextKey(context, singularText), n), singularText, pluralText, n)
    {
      var found := TrnInternal(bundle, context + CONTEXT_GLUE + singularText, n);
      r := if found.Some? then found.value else if n == 1 then singularText else pluralText;
    }

    /** `trnc(context, singularText, pluralText, n, objects)`: `format` applied to `trnc(...)`. */
    method TrncFormat<A>(context: string, singularText: string, pluralText: string, n: int, args: seq<A>,
                         format: (string, seq<A>) -> string) returns (r: string)
      ensures r == format(PluralFallback(PluralLookup(bundle, ContextKey(context, singularText), n), singularText, pluralText, n), args)
    {
      var t := Trnc(context, singularText, pluralText, n);
      r := format(t, args);
    }
  }

  /** `new I18n(baseName, locale, loader)`, whose constructor throws when no bundle is found. */
  method NewI18n(name: Option<string>, l: Option<Locale>, ld: Option<ClassLoader>) returns (r: Result<I18n, JavaException>)
    ensures name.None? || l.None? || ld.None? ==> r == Err(NullPointerException)
    ensures name.Some? && l.Some? && ld.Some? && ld.value.getBundle(name.value, l.value).None? ==>
              r == Err(BundleNotFound(name.value))
    ensures name.Some? && l.Some? && ld.Some? && ld.value.getBundle(name.value, l.value).Some? ==>
              r.Ok? && fresh(r.value) &&
              r.value.State() == TranslatorState(ld.value.getBundle(name.value, l.value).value, ENGLISH, name, ld, l)
  {
    if name.None? || l.None? || ld.None? {
      return Err(NullPointerException);
    }
    if ld.value.getBundle(name.value, l.value).None? {
      return Err(BundleNotFound(name.value));
    }
    var x := new I18n.FromLoader(name.value, l.value, ld.value);
    r := Ok(x);
  }

  /** `new I18n(bundle)`, whose constructor throws through `setResources` when the bundle is null. */
  method NewI18nFromBundle(b: Option<Bundle>) returns (r: Result<I18n, JavaException>)
    ensures b.None? ==> r == Err(NullPointerException)
    ensures b.Some? ==> r.Ok? && fresh(r.value) && r.value.State() == TranslatorState(b.value, ENGLISH, None, None, b.value.locale)
  {
    if b.None? {
      return Err(NullPointerException);
    }
    var x := new I18n.FromBundle(b.value);
    r := Ok(x);
  }

  // ---------------------------------------------------------------------------------------------
  // Properties of the lookups

  /** No bundle on the chain of `b` has an entry for `key`, and none of them is an empty bundle. */
  ghost predicate AbsentFromChain(b: Bundle, key: string)
  {
    match b
    case GettextPlural(_, plural, _, parent) => key !in plural && (parent.Some? ==> AbsentFromChain(parent.value, key))
    case GettextSimple(_, table, parent) => key !in table && (parent.Some? ==> AbsentFromChain(parent.value, key))
    case Plain(_, table, parent) => key !in table && (parent.Some? ==> AbsentFromChain(parent.value, key))
    case Empty(_) => false
  }

  /** A key that no bundle on the chain knows is a miss for `getString`, so `tr` returns it unchanged. */
  lemma {:induction false} TrOfAbsentKey(x: I18n, key: string)
    requires AbsentFromChain(x.bundle, key)
    ensures x.Tr(key) == key
  {
    GetStringOfAbsentKey(x.bundle, key);
  }

  lemma {:induction false} GetStringOfAbsentKey(b: Bundle, key: string)
    requires AbsentFromChain(b, key)
    ensures GetString(b, key).None? && GetObject(b, key).None?
  {
    if b.parent.Some? {
      GetStringOfAbsentKey(b.parent.value, key);
    }
  }

  /** `tr` returns the bundle's string whenever `getString` finds one. */
  lemma TrOfPresentKey(x: I18n, key: string)
    requires GetString(x.bundle, key).Some?
    ensures x.Tr(key) == GetString(x.bundle, key).value
  {
  }

  /** On a form list, the form chosen by `pluralEval(n)`, or the first form when that index is out of range. */
  lemma PluralLookupSelectsForm(b: Bundle, key: string, n: int)
    requires b.GettextPlural? && key in b.plural && b.plural[key].Forms?
    ensures var forms, i := b.plural[key].forms, b.pluralEval(n);
            PluralLookup(b, key, n) == Some(if 0 <= i < |forms| then forms[i] else forms[0])
  {
  }

  /** A single string, a gettext bundle without plural support, or a plain bundle: the count does not matter. */
  lemma PluralLookupIgnoresCount(b: Bundle, key: string, n: int, m: int)
    requires !b.GettextPlural? || key !in b.plural || b.plural[key].Single?
    ensures PluralLookup(b, key, n) == PluralLookup(b, key, m)
    ensures b.GettextPlural? && key in b.plural ==> PluralLookup(b, key, n) == Some(b.plural[key].text)
    ensures b.Plain? || b.Empty? ==> PluralLookup(b, key, n) == GetString(b, key)
  {
  }

  /**
   * The plural lookup never reaches the parent of a gettext bundle, while `getString` (and so
   * `tr`) does: a key known only to the parent is a miss for `trn` and `trnc`.
   */
  lemma PluralLookupStopsAtFirstGettextBundle(b: Bundle, key: string, n: int)
    requires b.GettextPlural? || b.GettextSimple?
    requires key !in (if b.GettextPlural? then b.plural.Keys else b.table.Keys)
    ensures PluralLookup(b, key, n) == None
    ensures GetString(b, key) == if b.parent.Some? then GetString(b.parent.value, key) else None
  {
  }

  /** On a miss `trn` answers with the singular text for one and the plural text otherwise. */
  lemma TrnOfMiss(x: I18n, text: string, pluralText: string, n: int)
    requires PluralLookup(x.bundle, text, n).None?
    ensures PluralFallback(PluralLookup(x.bundle, text, n), text, pluralText, n) == if n == 1 then text else pluralText
  {
  }

  /** `trc` returns the text untouched when the bundle is in the source-code locale. */
  lemma TrcInSourceLocale(x: I18n, context: string, text: string)
    requires x.bundle.locale == Some(x.sourceCodeLocale)
    ensures x.Trc(context, text) == text
  {
  }

  /** `trc` in another locale: the context key's translation, and `text` (not the composed key) on a miss. */
  lemma TrcInOtherLocale(x: I18n, context: string, text: string)
    requires x.bundle.locale != Some(x.sourceCodeLocale)
    ensures GetObject(x.bundle, ContextKey(context, text)).None? || GetObject(x.bundle, ContextKey(context, text)).value.EchoedKey? ==>
              x.Trc(context, text) == text
    ensures GetObject(x.bundle, ContextKey(context, text)).Some? && GetObject(x.bundle, ContextKey(context, text)).value.Text? ==>
              x.Trc(context, text) == GetString(x.bundle, ContextKey(context, text)).value
  {
  }

  /**
   * The glue keeps context and text apart: two context keys are equal only for equal context and
   * equal text, as long as neither context contains the glue character.
   */
  lemma ContextKeyInjective(c1: string, t1: string, c2: string, t2: string)
    requires CONTEXT_GLUE[0] !in c1 && CONTEXT_GLUE[0] !in c2
    ensures ContextKey(c1, t1) == ContextKey(c2, t2) ==> c1 == c2 && t1 == t2
  {
    var k1, k2 := ContextKey(c1, t1), ContextKey(c2, t2);
    if k1 == k2 {
      assert k1[|c1|] == CONTEXT_GLUE[0] && k2[|c2|] == CONTEXT_GLUE[0];
      assert forall i :: 0 <= i < |c1| ==> k1[i] == c1[i];
      assert forall i :: 0 <= i < |c2| ==> k2[i] == c2[i];
      assert |c1| == |c2|;
      assert c1 == k1[..|c1|] && c2 == k2[..|c2|];
      assert t1 == k1[|c1| + 1..] && t2 == k2[|c2| + 1..];
    }
  }

  /** Reloading twice for the same locale is the same as reloading once. */
  lemma SetLocaleIdempotent(s: TranslatorState, l: Locale)
    requires SetLocaleSpec(s, l).Ok?
    ensures SetLocaleSpec(SetLocaleSpec(s, l).value, l) == SetLocaleSpec(s, l)
  {
  }
}
