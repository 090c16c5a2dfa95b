/**
 * Model of org.xnap.commons.i18n.EmptyResourceBundle: the bundle used as a last resort, which
 * translates every key to itself and has no keys of its own.
 */
module EmptyBundle {
  import opened Wrappers
  import opened Bundles
  import opened Translator

  /** `new EmptyResourceBundle(locale)`; `getLocale` answers the locale it was built with. */
  function NewEmptyResourceBundle(locale: Option<Locale>): (b: Bundle)
    ensures b.Empty? && b.locale == locale
  {
    Empty(locale)
  }

  /** The enumeration `getKeys` returns; it is stateless. */
  datatype EmptyStringEnumeration = EmptyStringEnumeration

  /** `getKeys()`. */
  function GetKeys(b: Bundle): (e: EmptyStringEnumeration)
    requires b.Empty?
    ensures !HasMoreElements(e)
  {
    EmptyStringEnumeration
  }

  /** `hasMoreElements()`: there never is a next key. */
  predicate HasMoreElements(e: EmptyStringEnumeration)
  {
    false
  }

  /** `nextElement()`: calling it is an error. */
  function NextElement(e: EmptyStringEnumeration): (r: Result<string, JavaException>)
    ensures r == Err(IllegalStateException)
  {
    Err(IllegalStateException)
  }

  /** The enumeration is stateless: it never has a next key, and asking for one always fails. */
  lemma EnumerationNeverHasMore(e: EmptyStringEnumeration)
    ensures !HasMoreElements(e) && NextElement(e) == Err(IllegalStateException)
  {
  }

  /** `handleGetObject(key)` hands back the key object itself, whatever the key. */
  lemma HandleGetObjectEchoesKey(locale: Option<Locale>, key: string)
    ensures HandleGetObject(NewEmptyResourceBundle(locale), key) == Some(EchoedKey)
    ensures GetString(NewEmptyResourceBundle(locale), key) == Some(key)
  {
  }

  /** With an empty bundle `tr` is the identity. */
  lemma TrIsIdentity(x: I18n, key: string)
    requires x.bundle.Empty?
    ensures x.Tr(key) == key
  {
  }

  /** With an empty bundle `trn` answers the singular text for every count. */
  lemma TrnIsSingular(x: I18n, text: string, pluralText: string, n: int)
    requires x.bundle.Empty?
    ensures PluralFallback(PluralLookup(x.bundle, text, n), text, pluralText, n) == text
  {
  }

  /** With an empty bundle `trc` answers the text, in any locale. */
  lemma TrcIsText(x: I18n, context: string, text: string)
    requires x.bundle.Empty?
    ensures x.Trc(context, text) == text
  {
  }

  /**
   * With an empty bundle `trnc` answers the composed context key: the bundle is not a gettext
   * bundle, so `getString` finds the key itself and the count plays no part.
   */
  lemma TrncIsContextKey(x: I18n, context: string, text: string, pluralText: string, n: int)
    requires x.bundle.Empty?
    ensures PluralFallback(PluralLookup(x.bundle, ContextKey(context, text), n), text, pluralText, n) == ContextKey(context, text)
  {
  }
}
