# gettext-commons i18n runtime, modelled in Dafny

This project models the runtime core of gettext-commons (`org.xnap.commons.i18n`). This is the
part of the library that translates message strings for a Java program and the machinery that
finds, caches and re-localises the translators.

- **Translator** (`I18n.java`). A translator is bound to one resource bundle.
  - `tr` returns the bundle's string for a key, or the key itself when the bundle has none.
  - `trn` picks a plural form. A GNU gettext bundle chooses it with its `pluralEval` function.
    A miss answers the singular text for one and the plural text otherwise.
  - `trc` and `trnc` look up a context-qualified key `context + "\u0004" + text`.
  - `setResources`, `setLocale` and `setSourceCodeLocale` rebind the translator.
  - The plural lookup (`trnInternal`) stops at the first gettext bundle and never searches its
    parents. `tr` does search them. The model keeps that difference.
  - `trnc` never consults the source-code locale, while `trc` does.
- **Empty bundle** (`EmptyResourceBundle.java`). This last-resort bundle answers every key with
  the key itself and has no keys of its own.
- **Factory** (`I18nFactory.java`). It finds the bundle for a class.
  - With READ_PROPERTIES the entry points that start from a class take the base name from the
    nearest package whose `i18n.properties` declares `basename`. A nearer file without that key
    is skipped. Without one, the base name is `i18n.Messages`.
  - The package walk asks the cache and then the class loader once for each enclosing package,
    innermost first and the root last. The entry points that take a bundle name start it from the
    class's own name. The entry points that start from a class start it from the path `""`, so
    only the base name itself is tried.
  - The flags are FALLBACK, READ_PROPERTIES and NO_CACHE.
  - NO_CACHE suppresses storing a new instance in the cache and registering it with the
    manager. The cache is still consulted.
  - The FALLBACK instance over the empty bundle is cached under `""` even with NO_CACHE, and it
    is never registered with the manager.
- **Cache** (`I18nCache.java`). Lists of translators keyed by package name, searched in
  insertion order for the first one with the requested locale.
- **Manager** (`I18nManager.java`).
  - It holds the registry of managed translators. `setDefaultLocale` re-localises them in order
    and then notifies the locale-change listeners.
  - The listeners are notified last-registered first, over a snapshot of the list.
  - A weak wrapper forwards the event while its listener is alive. Otherwise it unregisters
    itself during the round.

Resource bundles and class loaders are values:
- A `Bundle` has one variant per kind of bundle that the source tells apart by reflection: a
  gettext bundle with plural support, a gettext bundle without it, and any other bundle. A
  fourth variant stands for the empty bundle. Reflection treats it as any other bundle, because
  its `handleGetObject` is not public, and the plural lookup does too. It is kept apart only
  because it answers a key with the key object itself, which `trc` detects by reference.
- A `ClassLoader` is a pair of functions: `getBundle(name, locale)`, which includes the JDK's
  locale fallback, and `getResource(filename)`, which yields a loaded properties map.

Java's `null` is `None`, and a thrown exception is an `Err`/`Fail` carrying a `JavaException`.

Files:
- `wrappers.dfy`: Option, Result, Outcome and the Java exceptions.
- `sequences.dfy`: `lastIndexOf`, `replace`, reversal and first-occurrence removal on sequences.
- `bundles.dfy`: ResourceBundle, Locale and ClassLoader.
- `translator.dfy`: I18n.
- `empty_bundle.dfy`: EmptyResourceBundle.
- `cache.dfy`: I18nCache.
- `manager.dfy`: I18nManager and its weak listener wrapper.
- `factory.dfy`: I18nFactory.

## Model

| member | source | states |
|---|---|---|
| Translator.TrnInternal | src/java/org/xnap/commons/i18n/I18n.java:404-473 | the do-while loop answers `PluralLookup`: a plural entry's form chosen by `pluralEval(n)`, the first form when that index is out of range, a simple gettext table entry, `getString` for other bundles, and a miss (None) on a gettext bundle without the key, because the parent is never reached |
| Translator.PluralLookup | src/java/org/xnap/commons/i18n/I18n.java:423-467 | a gettext bundle with plural support answers exactly the keys it holds itself; one without plural support answers its own table entry or nothing; any other bundle answers what `getString` finds over the parent chain |
| Translator.PluralLookupSelectsForm | src/java/org/xnap/commons/i18n/I18n.java:428-446 | on a form list the lookup answers `forms[pluralEval(n)]`, or `forms[0]` when the index is outside the list |
| Translator.PluralLookupIgnoresCount | src/java/org/xnap/commons/i18n/I18n.java:428-467 | for a single-string entry, a gettext bundle without plural support or a plain bundle, the count has no effect; a single-string entry answers its text; a plain or empty bundle answers `getString` |
| Translator.PluralLookupStopsAtFirstGettextBundle | src/java/org/xnap/commons/i18n/I18n.java:460-464 | a key missing from a gettext bundle is a miss for the plural lookup even when the parent has it; `getString` still finds it in the parent |
| Translator.I18n.FromBundle | src/java/org/xnap/commons/i18n/I18n.java:73-76 | the new translator holds the bundle, takes the bundle's locale, has English as its source-code locale, and has no base name or loader |
| Translator.I18n.FromLoader | src/java/org/xnap/commons/i18n/I18n.java:88-91 | the new translator holds the bundle the loader finds for the name and locale, and records the name, loader and locale |
| Translator.NewI18n | src/java/org/xnap/commons/i18n/I18n.java:88-91 | a null base name, locale or loader throws NullPointerException (through `setResources`); a missing bundle throws MissingResourceException; otherwise a fresh translator in the state FromLoader describes |
| Translator.NewI18nFromBundle | src/java/org/xnap/commons/i18n/I18n.java:73-76 | a null bundle throws NullPointerException (through `setResources`); otherwise a fresh translator in the state FromBundle describes |
| Translator.I18n.SetResources | src/java/org/xnap/commons/i18n/I18n.java:127-136 | a null bundle throws NullPointerException and changes nothing; otherwise the bundle and its locale are taken over, the base name and loader are forgotten, and the source-code locale stays |
| Translator.I18n.SetResourcesByName | src/java/org/xnap/commons/i18n/I18n.java:149-155 | any null argument throws NullPointerException; a missing bundle throws MissingResourceException; in both cases nothing changes; otherwise bundle, base name, locale and loader are all replaced |
| Translator.I18n.SetLocale | src/java/org/xnap/commons/i18n/I18n.java:185-195 | the new state is `SetLocaleSpec`: with a base name and a loader it reloads and answers true, or throws and changes nothing; without them it records the locale and answers false |
| Translator.SetLocaleIdempotent | src/java/org/xnap/commons/i18n/I18n.java:185-195 | a successful `setLocale(l)` repeated with the same locale leaves the state as the first call did |
| Translator.I18n.SetSourceCodeLocale | src/java/org/xnap/commons/i18n/I18n.java:211-217 | null throws NullPointerException and changes nothing; otherwise only the source-code locale changes |
| Translator.TrOfPresentKey | src/java/org/xnap/commons/i18n/I18n.java:229-237 | `tr` answers the bundle's string wherever `getString` finds one |
| Translator.TrOfAbsentKey | src/java/org/xnap/commons/i18n/I18n.java:229-237 | a key that no bundle on the parent chain holds comes back from `tr` unchanged |
| Bundles.GetObjectSearchesParents | src/java/org/xnap/commons/i18n/I18n.java:229-237 | the `getString` that `tr` relies on falls through to the parent bundle when a bundle other than the empty one lacks the key |
| Translator.I18n.Tr | src/java/org/xnap/commons/i18n/I18n.java:229-237 | the answer is either the key itself or the string `getString` finds for it, and it is the key whenever `getString` finds nothing |
| Translator.I18n.TrFormat | src/java/org/xnap/commons/i18n/I18n.java:256-259 | the formatter is applied to the translation `tr` gives |
| Translator.I18n.Trn | src/java/org/xnap/commons/i18n/I18n.java:314-322 | the plural lookup's string, or the singular text for one and the plural text otherwise on a miss |
| Translator.TrnOfMiss | src/java/org/xnap/commons/i18n/I18n.java:314-322 | on a miss `trn` answers the singular text exactly when the count is one |
| Translator.I18n.TrnFormat | src/java/org/xnap/commons/i18n/I18n.java:339-342 | the formatter is applied to what `trn` answers |
| Translator.TrcInSourceLocale | src/java/org/xnap/commons/i18n/I18n.java:488-498 | when the bundle's locale is the source-code locale, `trc` answers the text untouched |
| Translator.TrcInOtherLocale | src/java/org/xnap/commons/i18n/I18n.java:488-498 | in another locale `trc` answers the translation of the context key; it answers the text itself (not the composed key) when nothing is found or when the key object itself comes back, from the bundle or from any parent |
| Translator.I18n.Trc | src/java/org/xnap/commons/i18n/I18n.java:488-498 | the answer is either the text or a string some bundle on the chain holds under the context key, and it is the text in the source-code locale |
| Translator.I18n.Trnc | src/java/org/xnap/commons/i18n/I18n.java:515-522 | the plural lookup of the composed context key, falling back to the singular or plural text by count; the source-code locale plays no part |
| Translator.I18n.TrncFormat | src/java/org/xnap/commons/i18n/I18n.java:541-543 | the formatter is applied to what `trnc` answers |
| Translator.ContextKeyInjective | src/java/org/xnap/commons/i18n/I18n.java:44 | `ContextKey`: with the glue character absent from both contexts, two context keys are equal only for equal contexts and equal texts |
| EmptyBundle.NewEmptyResourceBundle | src/java/org/xnap/commons/i18n/EmptyResourceBundle.java:37-40 | an empty bundle whose `getLocale` answers the locale it was built with, null included |
| EmptyBundle.HandleGetObjectEchoesKey | src/java/org/xnap/commons/i18n/EmptyResourceBundle.java:45-48 | `handleGetObject` hands back the key object itself for every key, so `getString` answers the key |
| EmptyBundle.GetKeys | src/java/org/xnap/commons/i18n/EmptyResourceBundle.java:50-53 | the enumeration of keys has no elements |
| EmptyBundle.NextElement | src/java/org/xnap/commons/i18n/EmptyResourceBundle.java:68-72 | `nextElement` always throws IllegalStateException |
| EmptyBundle.EnumerationNeverHasMore | src/java/org/xnap/commons/i18n/EmptyResourceBundle.java:63-72 | every enumeration the bundle hands out has no next element, and asking for one throws IllegalStateException |
| EmptyBundle.TrIsIdentity | src/java/org/xnap/commons/i18n/EmptyResourceBundle.java:45-48 | over the empty bundle `tr` is the identity |
| EmptyBundle.TrnIsSingular | src/java/org/xnap/commons/i18n/I18n.java:466-467 | over the empty bundle `trn` answers the singular text for every count |
| EmptyBundle.TrcIsText | src/java/org/xnap/commons/i18n/I18n.java:488-498 | over the empty bundle `trc` answers the text in every locale, because the key that comes back is the very key object |
| EmptyBundle.TrncIsContextKey | src/java/org/xnap/commons/i18n/I18n.java:515-522 | over the empty bundle `trnc` answers the composed context key itself, whatever the count |
| Cache.FirstWithLocale | src/java/org/xnap/commons/i18n/I18nCache.java:58-69 | the answer is the earliest entry whose locale equals the requested one, and none exactly when no entry has that locale |
| Cache.I18nCache.constructor | src/java/org/xnap/commons/i18n/I18nCache.java:43-45 | the new cache is empty |
| Cache.I18nCache.Clear | src/java/org/xnap/commons/i18n/I18nCache.java:47-50 | afterwards the cache holds no package |
| Cache.I18nCache.Get | src/java/org/xnap/commons/i18n/I18nCache.java:52-70 | a null locale throws NullPointerException; otherwise the first instance stored for the package with that locale, and none for an unknown package |
| Cache.I18nCache.Put | src/java/org/xnap/commons/i18n/I18nCache.java:72-83 | the instance is appended to the package's list, which is created when absent; duplicates are kept and other packages are unchanged |
| Cache.I18nCache.Visit | src/java/org/xnap/commons/i18n/I18nCache.java:85-100 | every package is visited exactly once, each list in its stored order, so the visitor sees exactly the cached instances |
| Cache.FirstWithLocaleAppend | src/java/org/xnap/commons/i18n/I18nCache.java:61-66 | appending an instance changes what `get` finds only when no earlier instance had the locale |
| Cache.PutTwiceThenClear | src/java/org/xnap/commons/i18n/I18nCache.java:47-83 | after two `put`s for one package and locale, `get` answers the earlier instance and refuses a null locale; after `clear` it answers nothing |
| Manager.WeakLocaleChangeListener.constructor | src/java/org/xnap/commons/i18n/I18nManager.java:198-201 | the wrapper refers to its listener |
| Manager.WeakLocaleChangeListener.LocaleChanged | src/java/org/xnap/commons/i18n/I18nManager.java:203-212 | a live referent receives the event; a collected one makes the wrapper remove its own first registration from the manager |
| Manager.I18nManager.constructor | src/java/org/xnap/commons/i18n/I18nManager.java:46-49 | the registry and the listener list start empty |
| Manager.I18nManager.Add | src/java/org/xnap/commons/i18n/I18nManager.java:76-79 | the instance is appended without a duplicate check; listeners are unchanged |
| Manager.I18nManager.Remove | src/java/org/xnap/commons/i18n/I18nManager.java:153-156 | only the first occurrence of the instance is removed |
| Manager.I18nManager.RemoveEach | src/java/org/xnap/commons/i18n/I18nFactory.java:101-107 | one occurrence is removed per element handed over, so the registry loses exactly that multiset |
| Manager.I18nManager.AddLocaleChangeListener | src/java/org/xnap/commons/i18n/I18nManager.java:117-122 | the listener is appended; the registry is unchanged |
| Manager.I18nManager.AddWeakLocaleChangeListener | src/java/org/xnap/commons/i18n/I18nManager.java:137-142 | a fresh wrapper around the listener is appended, so no wrapper is ever registered twice |
| Manager.I18nManager.RemoveLocaleChangeListener | src/java/org/xnap/commons/i18n/I18nManager.java:166-171 | the first registration equal to the argument is removed; a listener added through a weak wrapper is not equal to it |
| Manager.I18nManager.FireLocaleChangedEvent | src/java/org/xnap/commons/i18n/I18nManager.java:180-192 | the snapshot is walked last-registered first: every direct listener and every live wrapper's listener receives the event, and exactly the collected wrappers leave the list |
| Manager.I18nManager.NotifyAt | src/java/org/xnap/commons/i18n/I18nManager.java:188-190 | one iteration of the backward loop delivers to the registration at that index and keeps or drops it according to whether it is live |
| Manager.I18nManager.SetDefaultLocale | src/java/org/xnap/commons/i18n/I18nManager.java:97-106 | every managed instance gets `setLocale`, then the listeners are notified; an exception stops at the first failing instance, leaves later instances and the listeners untouched, and notifies nobody |
| Manager.I18nManager.ApplyLocale | src/java/org/xnap/commons/i18n/I18nManager.java:99-104 | the loop applies `setLocale` in registry order, stopping at the first exception |
| Manager.PruneKeepsLive | src/java/org/xnap/commons/i18n/I18nManager.java:203-212 | a registration survives a notification round exactly when it is direct or its referent is alive |
| Manager.NotifyDirectInReverse | src/java/org/xnap/commons/i18n/I18nManager.java:188-190 | with direct listeners only, each is notified once and the k-th delivery goes to the k-th listener from the end |
| Manager.NotifyOmits | src/java/org/xnap/commons/i18n/I18nManager.java:180-192 | a listener that is neither registered nor behind a live wrapper receives nothing |
| Manager.RemoveThenFire | src/java/org/xnap/commons/i18n/I18nManager.java:166-171 | after `removeLocaleChangeListener` of a listener registered at most once directly and never weakly, no later event reaches it |
| Manager.WeakListenerLifecycle | src/java/org/xnap/commons/i18n/I18nManager.java:137-142 | a weakly added listener that is then collected is dropped by the next event, which leaves the list as it was before the add |
| Factory.FlagValues | src/java/org/xnap/commons/i18n/I18nFactory.java:54-73 | FALLBACK, READ_PROPERTIES and NO_CACHE are 1, 2 and 4, and DEFAULT sets none of them |
| Factory.FallbackIsSeparateBit | src/java/org/xnap/commons/i18n/I18nFactory.java:338-341 | `IsFallbackSet` holds once FALLBACK is or-ed in, and the other two flag tests answer as before |
| Factory.ReadPropertiesIsSeparateBit | src/java/org/xnap/commons/i18n/I18nFactory.java:343-346 | `IsReadPropertiesSet` holds once READ_PROPERTIES is or-ed in, and the other two flag tests answer as before |
| Factory.NoCacheIsSeparateBit | src/java/org/xnap/commons/i18n/I18nFactory.java:348-350 | `IsNoCacheSet` holds once NO_CACHE is or-ed in, and the other two flag tests answer as before |
| Factory.GetClassLoader | src/java/org/xnap/commons/i18n/I18nFactory.java:258-260 | the given loader, or the system loader for null |
| Factory.Prefixes | src/java/org/xnap/commons/i18n/I18nFactory.java:222-243 | the packages the walk visits: each but the last is the path cut at one of its dots, each is shorter than the one before it unless it is the root, and the last is the root "" (a path such as ".b" visits the root twice) |
| Factory.CandidatesEndWithBundleName | src/java/org/xnap/commons/i18n/I18nFactory.java:226 | `CandidateName` at the root is the bare bundle name, so the last name the package walk tries is that name |
| Factory.CandidatesCount | src/java/org/xnap/commons/i18n/I18nFactory.java:220-243 | the package walk tries one name per dot of the path, plus one |
| Factory.CandidatesOfNestedClass | src/java/org/xnap/commons/i18n/I18nFactory.java:220-243 | for `a.b.C` the walk tries `a.b.Messages`, `a.Messages` and `Messages`, in that order |
| Factory.CandidatesOfRoot | src/java/org/xnap/commons/i18n/I18nFactory.java:178 | the path "" passed by `getI18n(Class, Locale, int)` has the base name as its only candidate |
| Factory.PropertiesFilenameIsPackageDirectory | src/java/org/xnap/commons/i18n/I18nFactory.java:274 | `PropertiesFilename` is the package with every dot turned into a slash and every other character kept, followed by `/i18n.properties`, or `i18n.properties` at the root |
| Factory.ReadFromPropertiesFile | src/java/org/xnap/commons/i18n/I18nFactory.java:271-294 | a base name comes back exactly when the package's properties file exists and has a `basename` key, and it is that key's value |
| Factory.FirstBaseNameIsNearest | src/java/org/xnap/commons/i18n/I18nFactory.java:163-172 | `FirstBaseName` is the base name of the nearest package that declares one, and there is none exactly when no package declares one |
| Factory.GetI18nForClassWithFlags | src/java/org/xnap/commons/i18n/I18nFactory.java:158-179 | with READ_PROPERTIES, the nearest declared base name, otherwise `i18n.Messages`, is resolved from the path "" |
| Factory.GetI18nForClassAndLocale | src/java/org/xnap/commons/i18n/I18nFactory.java:125-128 | the class lookup with READ_PROPERTIES |
| Factory.GetI18nForClass | src/java/org/xnap/commons/i18n/I18nFactory.java:114-117 | the class lookup with the default locale and READ_PROPERTIES |
| Factory.GetI18nForBundleWithFlags | src/java/org/xnap/commons/i18n/I18nFactory.java:209-212 | the package walk from the class's own name with the given flags |
| Factory.GetI18nForBundleAndLocale | src/java/org/xnap/commons/i18n/I18nFactory.java:198-201 | the package walk with DEFAULT flags |
| Factory.GetI18nForBundle | src/java/org/xnap/commons/i18n/I18nFactory.java:187-190 | the package walk with the default locale and DEFAULT flags |
| Factory.CreateI18n | src/java/org/xnap/commons/i18n/I18nFactory.java:329-336 | a missing bundle throws and registers nothing; a found one yields a fresh translator, registered with the manager unless NO_CACHE |
| Factory.FindByBaseName | src/java/org/xnap/commons/i18n/I18nFactory.java:308-316 | as CreateI18n, with the missing-bundle exception turned into null |
| Factory.GetI18n | src/java/org/xnap/commons/i18n/I18nFactory.java:217-256 | a null locale throws NullPointerException; the first cached or loadable candidate wins; failing all, FALLBACK gives the shared empty-bundle instance under "" and otherwise MissingResourceException(path, bundleName) is thrown; listeners never change |
| Factory.Walk | src/java/org/xnap/commons/i18n/I18nFactory.java:220-243 | the do-while loop answers the first candidate the cache or the class loader answers; a loaded instance is cached and registered unless NO_CACHE, and nothing changes when nothing is found |
| Factory.ResolveStep | src/java/org/xnap/commons/i18n/I18nFactory.java:222-243 | the walk over a path is one probe of its immediate package, then the walk over that package unless the probe answered or the root was reached |
| Factory.Probe | src/java/org/xnap/commons/i18n/I18nFactory.java:229-241 | one package: the cache first, then the class loader |
| Factory.LoadCandidate | src/java/org/xnap/commons/i18n/I18nFactory.java:235-241 | a found bundle yields a fresh translator, which is put into the cache and the manager unless NO_CACHE |
| Factory.Fallback | src/java/org/xnap/commons/i18n/I18nFactory.java:246-253 | the instance cached under "" for the locale, or a fresh translator over a new empty bundle for that locale, stored under "" whatever the flags |
| Factory.ClearCache | src/java/org/xnap/commons/i18n/I18nFactory.java:99-109 | the packages are visited once each, and the visited instances are their lists one after the other; the manager loses one occurrence per visited instance (`remove` on each in turn), and then the cache is empty |
| Factory.LoadedInstanceIsCached | src/java/org/xnap/commons/i18n/I18nFactory.java:237-239 | once the loaded instance is stored under its name, the same walk stops at it in the cache |
| Factory.ResolveIgnoresOtherNames | src/java/org/xnap/commons/i18n/I18nFactory.java:229-232 | storing under a name the walk never tries leaves the walk's answer unchanged |
| Factory.CandidatesAreNonEmpty | src/java/org/xnap/commons/i18n/I18nFactory.java:226 | with a non-empty bundle name no candidate is "", so the fallback entry never takes part in the walk |
| Factory.LookupTwice | src/java/org/xnap/commons/i18n/I18nFactory.java:229-241 | without NO_CACHE a second identical lookup answers the very instance the first one found |
| Factory.LookupTwiceWithoutCaching | src/java/org/xnap/commons/i18n/I18nFactory.java:237 | with NO_CACHE two lookups of a loadable bundle answer two distinct instances, and the cache and manager stay as they were |
| Factory.FallbackTwice | src/java/org/xnap/commons/i18n/I18nFactory.java:246-253 | for a non-empty bundle name, when no bundle is found, two FALLBACK lookups answer the same instance even with NO_CACHE, over the empty bundle for that locale when none was cached |
| Factory.FallbackAgain | src/java/org/xnap/commons/i18n/I18nFactory.java:246-253 | a failed walk with an entry already under "" for the locale answers that entry |
| Factory.FallbackEntryCached | src/java/org/xnap/commons/i18n/I18nFactory.java:250 | after the fallback entry is stored, the walk still finds nothing and "" holds that entry first for the locale |

## Left out

- The Ant tasks for the build are not part of this model.
- `java.text.MessageFormat` is not modelled. The format overloads take the formatter as a function parameter.
- `ResourceBundle.getBundle` with its locale fallback, `ClassLoader.getResourceAsStream` and `Properties.load` are opaque functions inside `ClassLoader`. An `IOException` while loading a properties file is not modelled; the file counts as loaded.
- The reflection that finds `lookup`, `pluralEval`, `handleGetObject` and `getParent` on generated bundle classes is replaced by the variants of `Bundle`. Reflective failures other than a missing public method are not modelled.
- `synchronized` blocks and concurrent callers are not modelled. Every operation runs alone.
- Garbage collection is not modelled. `WeakLocaleChangeListener.Collect` clears a referent at a point the caller chooses.
- What a listener does when notified is not modelled. It is an identity that receives a `Delivery`, so listeners cannot re-enter the manager.
- The `source` field of `LocaleChangeEvent` is not modelled; it is always the factory class.
- `Locale.getDefault()` and `ClassLoader.getSystemClassLoader()` become parameters.
- The `I18nManager.getInstance()` singleton and the factory's static cache become explicit `I18nManager` and `I18nCache` arguments.
- Bundle values other than strings and the `ClassCastException` they would cause are not modelled.
- The getters `getResources` and `getLocale` are not separate members; the model reads the fields directly. `marktr`, which returns its argument, is not modelled.
- The `tr`, `trn` and `trnc` overloads taking one to four objects are not separate members. They are the array overload with a sequence of arguments.
- The `long` count of `trn`/`trnc` is an unbounded `int`. `pluralEval` is an opaque function from it.
- Factory.GetI18n: the exception messages are not modelled. MissingResourceException keeps only its class name and key, and getBundle's exception is `(baseName, "")`.
- Translator.I18n.SetLocale: a null locale is not modelled. The locale parameter is never null, so the NullPointerException `setResources` would throw on reload is absent.
- Manager.I18nManager.SetDefaultLocale: a null locale is not modelled, for the same reason.
- Null message strings are not modelled. This covers `text`, `pluralText` and `context` of `tr`, `trn`, `trc` and `trnc`, and `path` and `bundleName` of the factory lookups; Java would throw NullPointerException from inside `getString` or `getBundle` there. Every string parameter is a non-null `string`.
- Bundles.PluralForms: a plural form list is never empty, because msgfmt never produces one. For an empty list the source's indexing would throw inside `trnInternal`; the exception is swallowed, so that lookup would be a miss.
- Bundles.HandleGetObject: for a gettext bundle with plural support, a form-list entry answers its first form. That generated class is outside the library, so this is how the model takes it to behave.
