/**
 * The parts of java.util.ResourceBundle, java.util.Locale and java.lang.ClassLoader that the
 * translation core depends on. Resource bundles are values: the reflection the source uses to
 * tell a GNU gettext bundle from an ordinary one is replaced by the variant of `Bundle`.
 */
module Bundles {
  import opened Wrappers

  /** java.util.Locale; only equality matters to the core. */
  datatype Locale = Locale(language: string, country: string)

  const ENGLISH: Locale := Locale("en", "")

  /** A list of plural forms; msgfmt never produces an empty one. */
  type PluralForms = s: seq<string> | |s| > 0 witness [""]

  /** What the `lookup` method of a GNU gettext bundle with plural support returns for a key. */
  datatype Entry = Single(text: string) | Forms(forms: PluralForms)

  /**
   * A loaded resource bundle.
   * - GettextPlural: a class generated by msgfmt with public `handleGetObject`, `getParent`,
   *   `lookup` and `pluralEval`;
   * - GettextSimple: a generated class with public `handleGetObject` and `getParent` only;
   * - Plain: any other bundle (its `handleGetObject` or `getParent` is not public), such as a
   *   properties bundle;
   * - Empty: an EmptyResourceBundle, which answers every key with the key itself.
   * `locale` is what `getLocale()` returns; it may be null.
   */
  datatype Bundle =
    | GettextPlural(locale: Option<Locale>, plural: map<string, Entry>, pluralEval: int -> int, parent: Option<Bundle>)
    | GettextSimple(locale: Option<Locale>, table: map<string, string>, parent: Option<Bundle>)
    | Plain(locale: Option<Locale>, table: map<string, string>, parent: Option<Bundle>)
    | Empty(locale: Option<Locale>)

  /**
   * What `handleGetObject` hands back. `EchoedKey` is the key object itself, which only
   * EmptyResourceBundle returns; the distinction matters where the source compares references.
   */
  datatype Value = Text(text: string) | EchoedKey

  /** `handleGetObject(key)` of one bundle, without its parents; None is Java's null. */
  function HandleGetObject(b: Bundle, key: string): Option<Value>
  {
    match b
    case GettextPlural(_, plural, _, _) =>
      // the generated class answers with the first form when the entry is a form list
      if key !in plural then None
      else if plural[key].Single? then Some(Text(plural[key].text))
      else Some(Text(plural[key].forms[0]))
    case GettextSimple(_, table, _) => if key in table then Some(Text(table[key])) else None
    case Plain(_, table, _) => if key in table then Some(Text(table[key])) else None
    case Empty(_) => Some(EchoedKey)
  }

  /** `ResourceBundle.getObject(key)`: this bundle first, then its parent chain; None is a miss. */
  function GetObject(b: Bundle, key: string): (r: Option<Value>)
    ensures HandleGetObject(b, key).Some? ==> r == HandleGetObject(b, key)
    ensures r.Some? && HandleGetObject(b, key).None? ==> !b.Empty? && b.parent.Some?
  {
    match HandleGetObject(b, key)
    case Some(v) => Some(v)
    case None =>
      if !b.Empty? && b.parent.Some? then GetObject(b.parent.value, key) else None
  }

  /** `ResourceBundle.getString(key)`: the text found for `key`; None means MissingResourceException. */
  function GetString(b: Bundle, key: string): Option<string>
  {
    match GetObject(b, key)
    case Some(Text(s)) => Some(s)
    case Some(EchoedKey) => Some(key)
    case None => None
  }

  /** A properties file as `Properties.load` leaves it. */
  type Properties = map<string, string>

  /**
   * A class loader, reduced to the two services the core asks of it:
   * `ResourceBundle.getBundle(name, locale, loader)` with the JDK's locale fallback, and
   * `getResourceAsStream(filename)` followed by `Properties.load`. None is a missing resource.
   */
  datatype ClassLoader = ClassLoader(getBundle: (string, Locale) -> Option<Bundle>, getResource: string -> Option<Properties>)

  /** A bundle seen through `getString` answers a key when any bundle on its parent chain does. */
  lemma GetObjectSearchesParents(b: Bundle, key: string)
    requires !b.Empty? && b.parent.Some?
    requires key !in (if b.GettextPlural? then b.plural.Keys else b.table.Keys)
    ensures GetObject(b, key) == GetObject(b.parent.value, key)
  {
  }
}
