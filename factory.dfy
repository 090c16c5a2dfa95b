/**
 * Model of org.xnap.commons.i18n.I18nFactory: finds the message bundle that belongs to a class
 * by walking up its package hierarchy, caches the resulting I18n instances per package and
 * registers them with the manager.
 */
module Factory {
  import opened Wrappers
  import opened Sequences
  import opened Bundles
  import opened Translator
  import opened EmptyBundle
  import opened Cache
  import opened Manager

  /** The key of the base name in an `i18n.properties` file. */
  const BASENAME_KEY: string := "basename"

  /** The lookup flags, a Java int. */
  const DEFAULT: bv32 := 0
  const FALLBACK: bv32 := 1 << 0
  const READ_PROPERTIES: bv32 := 2 << 0
  const NO_CACHE: bv32 := 4 << 0

  const DEFAULT_BASE_NAME: string := "i18n.Messages"
  const PROPS_FILENAME: string := "i18n.properties"

  predicate IsFallbackSet(flags: bv32)
  {
    flags & FALLBACK != 0
  }

  predicate IsReadPropertiesSet(flags: bv32)
  {
    flags & READ_PROPERTIES != 0
  }

  predicate IsNoCacheSet(flags: bv32)
  {
    flags & NO_CACHE != 0
  }

  /** The three flags are the bits 1, 2 and 4, and DEFAULT sets none of them. */
  lemma FlagValues()
    ensures FALLBACK == 1 && READ_PROPERTIES == 2 && NO_CACHE == 4
    ensures !IsFallbackSet(DEFAULT) && !IsReadPropertiesSet(DEFAULT) && !IsNoCacheSet(DEFAULT)
  {
  }

  /** Or-ing in a bit sets it and leaves every bit outside it as it was. */
  lemma OrMasks(flags: bv32, bit: bv32, other: bv32)
    requires bit & other == 0
    ensures (flags | bit) & bit == bit
    ensures (flags | bit) & other == flags & other
  {
  }

  /** Setting FALLBACK turns it on and leaves the other two flags as they were. */
  lemma FallbackIsSeparateBit(flags: bv32)
    ensures IsFallbackSet(flags | FALLBACK)
    ensures IsReadPropertiesSet(flags | FALLBACK) == IsReadPropertiesSet(flags)
    ensures IsNoCacheSet(flags | FALLBACK) == IsNoCacheSet(flags)
  {
    OrMasks(flags, FALLBACK, READ_PROPERTIES);
    OrMasks(flags, FALLBACK, NO_CACHE);
  }

  /** Setting READ_PROPERTIES turns it on and leaves the other two flags as they were. */
  lemma ReadPropertiesIsSeparateBit(flags: bv32)
    ensures IsReadPropertiesSet(flags | READ_PROPERTIES)
    ensures IsFallbackSet(flags | READ_PROPERTIES) == IsFallbackSet(flags)
    ensures IsNoCacheSet(flags | READ_PROPERTIES) == IsNoCacheSet(flags)
  {
    OrMasks(flags, READ_PROPERTIES, FALLBACK);
    OrMasks(flags, READ_PROPERTIES, NO_CACHE);
  }

  /** Setting NO_CACHE turns it on and leaves the other two flags as they were. */
  lemma NoCacheIsSeparateBit(flags: bv32)
    ensures IsNoCacheSet(flags | NO_CACHE)
    ensures IsFallbackSet(flags | NO_CACHE) == IsFallbackSet(flags)
    ensures IsReadPropertiesSet(flags | NO_CACHE) == IsReadPropertiesSet(flags)
  {
    OrMasks(flags, NO_CACHE, FALLBACK);
    OrMasks(flags, NO_CACHE, READ_PROPERTIES);
  }

  /** A Java class as far as the factory looks at it: its fully qualified name and its class loader. */
  datatype JavaClass = JavaClass(name: string, loader: Option<ClassLoader>)

  /** `getClassLoader(loader)`: the given loader, or the system class loader for null. */
  function GetClassLoader(loader: Option<ClassLoader>, system: ClassLoader): (r: ClassLoader)
    ensures loader.Some? ==> r == loader.value
    ensures loader.None? ==> r == system
  {
    if loader.Some? then loader.value else system
  }

  // ---------------------------------------------------------------------------------------------
  // The package hierarchy

  /**
   * The packages the walks visit for `path`, innermost first: each step cuts `path` at its last
   * dot, and the step that finds no dot yields the root "" and ends the walk.
   */
  function Prefixes(path: string): (r: seq<string>)
    ensures |r| > 0 && r[|r| - 1] == ""
    ensures forall j :: 0 <= j < |r| ==> |r[j]| < |path| || r[j] == ""
    ensures forall j :: 0 < j < |r| ==> |r[j]| < |r[j - 1]| || r[j] == ""
    ensures forall j :: 0 <= j < |r| - 1 ==> |r[j]| < |path| && path[..|r[j]|] == r[j] && path[|r[j]|] == '.'
    decreases |path|
  {
    var i := LastIndexOf(path, '.');
    if i == -1 then [""]
    else
      var rest := Prefixes(path[..i]);
      var r := [path[..i]] + rest;
      assert forall j :: 0 < j < |r| ==> r[j] == rest[j - 1];
      assert forall j :: 0 <= j < |rest| - 1 ==> path[..|rest[j]|] == path[..i][..|rest[j]|] && path[|rest[j]|] == path[..i][|rest[j]|];
      r
  }

  /** The bundle name looked up for a package: `prefix.bundleName`, or `bundleName` at the root. */
  function CandidateName(prefix: string, bundleName: string): string
  {
    if |prefix| == 0 then bundleName else prefix + "." + bundleName
  }

  function CandidateNames(prefixes: seq<string>, bundleName: string): (r: seq<string>)
    ensures |r| == |prefixes|
    ensures forall j :: 0 <= j < |r| ==> r[j] == CandidateName(prefixes[j], bundleName)
  {
    if |prefixes| == 0 then [] else [CandidateName(prefixes[0], bundleName)] + CandidateNames(prefixes[1..], bundleName)
  }

  /** The names the package walk tries for `path` and `bundleName`, in order. */
  function Candidates(path: string, bundleName: string): seq<string>
  {
    CandidateNames(Prefixes(path), bundleName)
  }

  /** The walk ends with the bare bundle name. */
  lemma CandidatesEndWithBundleName(path: string, bundleName: string)
    ensures var c := Candidates(path, bundleName); |c| > 0 && c[|c| - 1] == bundleName
  {
  }

  /** One name per dot of the path, plus the bare bundle name. */
  lemma {:induction false} CandidatesCount(path: string, bundleName: string)
    ensures |Candidates(path, bundleName)| == Count(path, '.') + 1
  {
    PrefixesCount(path);
  }

  lemma {:induction false} PrefixesCount(path: string)
    ensures |Prefixes(path)| == Count(path, '.') + 1
    decreases |path|
  {
    var i := LastIndexOf(path, '.');
    if i == -1 {
      CountAbsent(path, '.');
    } else {
      PrefixesCount(path[..i]);
      CountBeforeLast(path, '.');
    }
  }

  lemma {:induction false} CountAbsent(s: string, c: char)
    requires c !in s
    ensures Count(s, c) == 0
  {
    if |s| > 0 {
      assert s == s[..|s| - 1] + [s[|s| - 1]];
      CountAbsent(s[..|s| - 1], c);
    }
  }

  /** For a class `a.b.C` the walk tries `a.b.Messages`, then `a.Messages`, then `Messages`. */
  lemma CandidatesOfNestedClass()
    ensures Candidates("a.b.C", "Messages") == ["a.b.Messages", "a.Messages", "Messages"]
  {
    PrefixesOfNestedClass();
    assert CandidateName("a.b", "Messages") == "a.b.Messages";
    assert CandidateName("a", "Messages") == "a.Messages";
  }

  /** The packages walked for `a.b.C`: `a.b`, then `a`, then the root. */
  lemma PrefixesOfNestedClass()
    ensures Prefixes("a.b.C") == ["a.b", "a", ""]
  {
    assert "a.b.C"[4..] == "C";
    LastIndexOfAt("a.b.C", '.', 3);
    assert "a.b.C"[..3] == "a.b";
    assert "a.b"[2..] == "b";
    LastIndexOfAt("a.b", '.', 1);
    assert "a.b"[..1] == "a";
    assert LastIndexOf("a", '.') == -1;
  }

  /** The path "" has a single candidate: the bundle name itself. */
  lemma CandidatesOfRoot(bundleName: string)
    ensures Candidates("", bundleName) == [bundleName]
  {
  }

  // ---------------------------------------------------------------------------------------------
  // The properties file walk

  /** The resource name of the `i18n.properties` file of a package. */
  function PropertiesFilename(path: string): string
  {
    if |path| == 0 then PROPS_FILENAME else Replace(path, '.', '/') + "/" + PROPS_FILENAME
  }

  /**
   * The properties file of a package lives in the directory of the package: the package name
   * with every dot turned into a slash, followed by `/i18n.properties`; at the root it is
   * `i18n.properties` itself.
   */
  lemma PropertiesFilenameIsPackageDirectory(path: string)
    ensures |path| == 0 ==> PropertiesFilename(path) == PROPS_FILENAME
    ensures |path| > 0 ==>
              var f := PropertiesFilename(path);
              |f| == |path| + 1 + |PROPS_FILENAME| &&
              f[|path|..] == "/" + PROPS_FILENAME &&
              (forall k :: 0 <= k < |path| && path[k] == '.' ==> f[k] == '/') &&
              (forall k :: 0 <= k < |path| && path[k] != '.' ==> f[k] == path[k])
  {
    if |path| > 0 {
      var d := Replace(path, '.', '/');
      assert PropertiesFilename(path) == d + ("/" + PROPS_FILENAME);
    }
  }

  /** `readFromPropertiesFile(path, locale, loader)`: the `basename` property of the package's file, if any. */
  function ReadFromPropertiesFile(path: string, ld: ClassLoader): (r: Option<string>)
    ensures r.Some? <==> ld.getResource(PropertiesFilename(path)).Some? && BASENAME_KEY in ld.getResource(PropertiesFilename(path)).value
    ensures r.Some? ==> r.value == ld.getResource(PropertiesFilename(path)).value[BASENAME_KEY]
  {
    match ld.getResource(PropertiesFilename(path))
    case None => None
    case Some(props) => if BASENAME_KEY in props then Some(props[BASENAME_KEY]) else None
  }

  /** The base name the first of `prefixes` that has one declares. */
  function FirstBaseName(prefixes: seq<string>, ld: ClassLoader): Option<string>
  {
    if |prefixes| == 0 then None
    else match ReadFromPropertiesFile(prefixes[0], ld)
      case Some(name) => Some(name)
      case None => FirstBaseName(prefixes[1..], ld)
  }

  /** The nearest package declares the base name: every package before it declares none. */
  lemma {:induction false} FirstBaseNameIsNearest(prefixes: seq<string>, ld: ClassLoader)
    ensures FirstBaseName(prefixes, ld).None? <==> forall j :: 0 <= j < |prefixes| ==> ReadFromPropertiesFile(prefixes[j], ld).None?
    ensures FirstBaseName(prefixes, ld).Some? ==>
              exists j :: 0 <= j < |prefixes| && ReadFromPropertiesFile(prefixes[j], ld) == FirstBaseName(prefixes, ld) &&
                forall i :: 0 <= i < j ==> ReadFromPropertiesFile(prefixes[i], ld).None?
  {
    if |prefixes| > 0 {
      FirstBaseNameIsNearest(prefixes[1..], ld);
      if ReadFromPropertiesFile(prefixes[0], ld).None? && FirstBaseName(prefixes, ld).Some? {
        var j :| 0 <= j < |prefixes| - 1 && ReadFromPropertiesFile(prefixes[1..][j], ld) == FirstBaseName(prefixes, ld) &&
                 forall i :: 0 <= i < j ==> ReadFromPropertiesFile(prefixes[1..][i], ld).None?;
        assert ReadFromPropertiesFile(prefixes[j + 1], ld) == FirstBaseName(prefixes, ld);
      }
      if FirstBaseName(prefixes, ld).None? {
        forall j | 0 <= j < |prefixes| ensures ReadFromPropertiesFile(prefixes[j], ld).None? {
          if j > 0 {
            assert prefixes[j] == prefixes[1..][j - 1];
          }
        }
      }
    }
  }

  /** The base name the properties walk of `getI18n(Class, Locale, int)` settles on. */
  function BaseNameFor(clazz: JavaClass, ld: ClassLoader, flags: bv32): string
  {
    if IsReadPropertiesSet(flags) && FirstBaseName(Prefixes(clazz.name), ld).Some?
    then FirstBaseName(Prefixes(clazz.name), ld).value
    else DEFAULT_BASE_NAME
  }

  // ---------------------------------------------------------------------------------------------
  // The package walk

  /** What the package walk settles on, given the cache contents at its start. */
  datatype Step = CacheHit(hit: I18n) | Load(name: string, bundle: Bundle) | NotFound

  /**
   * The first name of `names` that either has a cached instance for `l` (the cache is consulted
   * first) or for which the class loader finds a bundle.
   */
  ghost function Resolve(m: map<string, seq<I18n>>, names: seq<string>, ld: ClassLoader, l: Locale): Step
    reads Instances(m)
  {
    if |names| == 0 then NotFound
    else
      assert forall x :: x in ListIn(m, names[0]) ==> x in Instances(m);
      match FirstWithLocale(ListIn(m, names[0]), l)
      case Some(x) => CacheHit(x)
      case None =>
        match ld.getBundle(names[0], l)
        case Some(b) => Load(names[0], b)
        case None => Resolve(m, names[1..], ld, l)
  }

  /** The outcome of caching a newly found instance: nothing under NO_CACHE, one appended entry otherwise. */
  twostate predicate Registered(cache: I18nCache, manager: I18nManager, name: string, flags: bv32, new x: I18n)
    reads cache, manager
  {
    if IsNoCacheSet(flags) then cache.byPackage == old(cache.byPackage) && manager.i18ns == old(manager.i18ns)
    else cache.byPackage == old(cache.byPackage)[name := old(cache.ListOf(name)) + [x]] &&
         manager.i18ns == old(manager.i18ns) + [x]
  }

  /** What the package walk over `names` leaves behind: an instance, or nothing and no change. */
  twostate predicate Walked(cache: I18nCache, manager: I18nManager, names: seq<string>, ld: ClassLoader, l: Locale,
                            flags: bv32, new r: Option<I18n>)
    reads cache, manager, if r.Some? then {r.value} else {}
  {
    manager.listeners == old(manager.listeners) &&
    match old(Resolve(cache.byPackage, names, ld, l))
    case CacheHit(x) =>
      r == Some(x) && cache.byPackage == old(cache.byPackage) && manager.i18ns == old(manager.i18ns)
    case Load(name, b) =>
      r.Some? && fresh(r.value) && r.value.State() == TranslatorState(b, ENGLISH, Some(name), Some(ld), Some(l)) &&
      Registered(cache, manager, name, flags, r.value)
    case NotFound =>
      r.None? && cache.byPackage == old(cache.byPackage) && manager.i18ns == old(manager.i18ns)
  }

  /**
   * The contract of `getI18n(path, bundleName, classLoader, locale, flags)`. A null locale makes
   * the first cache lookup throw. The cache is consulted whatever the flags say; NO_CACHE only
   * suppresses storing a fresh instance. The fallback instance is cached (under "") even with
   * NO_CACHE and is never registered with the manager.
   */
  twostate predicate Resolved(cache: I18nCache, manager: I18nManager, path: string, bundleName: string,
                              ld: ClassLoader, l: Option<Locale>, flags: bv32, new r: Result<I18n, JavaException>)
    reads cache, manager, if r.Ok? then {r.value} else {}
  {
    manager.listeners == old(manager.listeners) &&
    if l.None? then
      r == Err(NullPointerException) && cache.byPackage == old(cache.byPackage) && manager.i18ns == old(manager.i18ns)
    else if !old(Resolve(cache.byPackage, Candidates(path, bundleName), ld, l.value)).NotFound? then
      r.Ok? && Walked(cache, manager, Candidates(path, bundleName), ld, l.value, flags, Some(r.value))
    else
      manager.i18ns == old(manager.i18ns) &&
      if !IsFallbackSet(flags) then
        r == Err(MissingResourceException(path, bundleName)) && cache.byPackage == old(cache.byPackage)
      else match old(FirstWithLocale(cache.ListOf(""), l.value))
        case Some(x) => r == Ok(x) && cache.byPackage == old(cache.byPackage)
        case None =>
          r.Ok? && fresh(r.value) && r.value.State() == TranslatorState(Empty(l), ENGLISH, None, None, l) &&
          cache.byPackage == old(cache.byPackage)["" := old(cache.ListOf("")) + [r.value]]
  }

  /** `createI18n(baseName, locale, loader, flags)`: a new instance, registered with the manager unless NO_CACHE. */
  method CreateI18n(manager: I18nManager, baseName: string, l: Locale, ld: ClassLoader, flags: bv32)
    returns (r: Result<I18n, JavaException>)
    modifies manager
    ensures manager.listeners == old(manager.listeners)
    ensures ld.getBundle(baseName, l).None? ==> r == Err(BundleNotFound(baseName)) && manager.i18ns == old(manager.i18ns)
    ensures ld.getBundle(baseName, l).Some? ==>
              r.Ok? && fresh(r.value) &&
              r.value.State() == TranslatorState(ld.getBundle(baseName, l).value, ENGLISH, Some(baseName), Some(ld), Some(l)) &&
              manager.i18ns == if IsNoCacheSet(flags) then old(manager.i18ns) else old(manager.i18ns) + [r.value]
  {
    r := NewI18n(Some(baseName), Some(l), Some(ld));
    if r.Ok? && !IsNoCacheSet(flags) {
      manager.Add(r.value);
    }
  }

  /** `findByBaseName(baseName, locale, loader, flags)`: CreateI18n with a missing bundle turned into null. */
  method FindByBaseName(manager: I18nManager, baseName: string, l: Locale, ld: ClassLoader, flags: bv32)
    returns (r: Option<I18n>)
    modifies manager
    ensures manager.listeners == old(manager.listeners)
    ensures ld.getBundle(baseName, l).None? ==> r.None? && manager.i18ns == old(manager.i18ns)
    ensures ld.getBundle(baseName, l).Some? ==>
              r.Some? && fresh(r.value) &&
              r.value.State() == TranslatorState(ld.getBundle(baseName, l).value, ENGLISH, Some(baseName), Some(ld), Some(l)) &&
              manager.i18ns == if IsNoCacheSet(flags) then old(manager.i18ns) else old(manager.i18ns) + [r.value]
  {
    var created := CreateI18n(manager, baseName, l, ld, flags);
    if created.Err? {
      assert created.error.MissingResourceException?;  // the one exception that is caught
      r := None;
    } else {
      r := Some(created.value);
    }
  }

  /**
   * `getI18n(path, bundleName, classLoader, locale, flags)`. Failing the package walk, FALLBACK
   * yields the shared instance of the empty bundle; otherwise the bundle is reported missing.
   */
  method GetI18n(cache: I18nCache, manager: I18nManager, path: string, bundleName: string,
                 loader: Option<ClassLoader>, system: ClassLoader, l: Option<Locale>, flags: bv32)
    returns (r: Result<I18n, JavaException>)
    modifies cache, manager
    ensures Resolved(cache, manager, path, bundleName, GetClassLoader(loader, system), l, flags, r)
  {
    if l.None? {
      // the cache lookup for the first candidate throws
      return Err(NullPointerException);
    }
    var ld := GetClassLoader(loader, system);
    var found := Walk(cache, manager, path, bundleName, ld, l.value, flags);
    if found.Some? {
      return Ok(found.value);
    }
    if IsFallbackSet(flags) {
      assert forall x :: x in cache.ListOf("") ==> x in Instances(cache.byPackage);
      assert FirstWithLocale(cache.ListOf(""), l.value) == old(FirstWithLocale(cache.ListOf(""), l.value));
      var x := Fallback(cache, l.value);
      return Ok(x);
    }
    r := Err(MissingResourceException(path, bundleName));
  }

  /** Resolve over the candidates of a path, one package at a time. */
  lemma ResolveStep(m: map<string, seq<I18n>>, path: string, bundleName: string, ld: ClassLoader, l: Locale)
    ensures var i := LastIndexOf(path, '.');
            var prefix := if i != -1 then path[..i] else "";
            var first := Resolve(m, [CandidateName(prefix, bundleName)], ld, l);
            Resolve(m, Candidates(path, bundleName), ld, l) ==
              if !first.NotFound? || i == -1 then first else Resolve(m, Candidates(prefix, bundleName), ld, l)
  {
    var i := LastIndexOf(path, '.');
    var prefix := if i != -1 then path[..i] else "";
    var ps := Prefixes(path);
    assert ps == [prefix] + (if i == -1 then [] else Prefixes(prefix));
    var c := CandidateNames(ps, bundleName);
    assert c[0] == CandidateName(prefix, bundleName);
    assert c[1..] == CandidateNames(ps[1..], bundleName);
    if i == -1 {
      assert c[1..] == [];
    } else {
      assert c[1..] == Candidates(prefix, bundleName);
    }
    assert [c[0]][1..] == [];
    assert Resolve(m, c, ld, l) ==
             if FirstWithLocale(ListIn(m, c[0]), l).Some? then CacheHit(FirstWithLocale(ListIn(m, c[0]), l).value)
             else if ld.getBundle(c[0], l).Some? then Load(c[0], ld.getBundle(c[0], l).value)
             else Resolve(m, c[1..], ld, l);
  }

  /**
   * The do-while loop of the package walk: for each package of `path`, innermost first and the
   * root last, the cache is asked and then the class loader; the first answer wins.
   */
  method Walk(cache: I18nCache, manager: I18nManager, path: string, bundleName: string, ld: ClassLoader, l: Locale, flags: bv32)
    returns (r: Option<I18n>)
    modifies cache, manager
    ensures Walked(cache, manager, Candidates(path, bundleName), ld, l, flags, r)
  {
    ghost var goal := Resolve(cache.byPackage, Candidates(path, bundleName), ld, l);
    var prefix := path;
    var more := true;
    while more
      invariant cache.byPackage == old(cache.byPackage) && manager.i18ns == old(manager.i18ns)
      invariant manager.listeners == old(manager.listeners)
      invariant more ==> Resolve(cache.byPackage, Candidates(prefix, bundleName), ld, l) == goal
      invariant !more ==> goal == NotFound
      decreases if more then |prefix| + 1 else 0
    {
      ResolveStep(cache.byPackage, prefix, bundleName, ld, l);
      var index := LastIndexOf(prefix, '.');
      prefix := if index != -1 then prefix[..index] else "";
      label BeforeProbe:
      var found := Probe(cache, manager, CandidateName(prefix, bundleName), ld, l, flags);
      if found.Some? {
        return found;
      }
      assert forall x | x in Instances(cache.byPackage) :: unchanged@BeforeProbe(x);
      assert Resolve(cache.byPackage, Candidates(prefix, bundleName), ld, l) ==
             old@BeforeProbe(Resolve(cache.byPackage, Candidates(prefix, bundleName), ld, l));
      more := index != -1;
    }
    r := None;
  }

  /** One step of the package walk: the cache is asked for `name`, then the class loader. */
  method Probe(cache: I18nCache, manager: I18nManager, name: string, ld: ClassLoader, l: Locale, flags: bv32)
    returns (r: Option<I18n>)
    modifies cache, manager
    ensures Walked(cache, manager, [name], ld, l, flags, r)
  {
    assert [name][1..] == [];
    ghost var step := Resolve(cache.byPackage, [name], ld, l);
    var cached := cache.Get(name, Some(l));
    if cached.value.Some? {
      return cached.value;
    }
    assert step == match ld.getBundle(name, l) case Some(b) => Load(name, b) case None => NotFound;
    r := LoadCandidate(cache, manager, name, l, ld, flags);
  }

  /** The class-loader half of one step of the package walk: a new instance, cached unless NO_CACHE. */
  method LoadCandidate(cache: I18nCache, manager: I18nManager, name: string, l: Locale, ld: ClassLoader, flags: bv32)
    returns (found: Option<I18n>)
    modifies cache, manager
    ensures manager.listeners == old(manager.listeners)
    ensures ld.getBundle(name, l).None? ==>
              found.None? && cache.byPackage == old(cache.byPackage) && manager.i18ns == old(manager.i18ns)
    ensures ld.getBundle(name, l).Some? ==>
              found.Some? && fresh(found.value) &&
              found.value.State() == TranslatorState(ld.getBundle(name, l).value, ENGLISH, Some(name), Some(ld), Some(l)) &&
              Registered(cache, manager, name, flags, found.value)
  {
    found := FindByBaseName(manager, name, l, ld, flags);
    if found.Some? && !IsNoCacheSet(flags) {
      cache.Put(name, found.value);
    }
  }

  /**
   * The FALLBACK branch of the package walk: the instance cached under "" for the locale, or a
   * new instance of the empty bundle, cached under "" (whatever the flags) but not registered.
   */
  method Fallback(cache: I18nCache, l: Locale) returns (x: I18n)
    modifies cache
    ensures old(FirstWithLocale(cache.ListOf(""), l)).Some? ==>
              x == old(FirstWithLocale(cache.ListOf(""), l)).value && cache.byPackage == old(cache.byPackage)
    ensures old(FirstWithLocale(cache.ListOf(""), l)).None? ==>
              fresh(x) && x.State() == TranslatorState(Empty(Some(l)), ENGLISH, None, None, Some(l)) &&
              cache.byPackage == old(cache.byPackage)["" := old(cache.ListOf("")) + [x]]
  {
    var cached := cache.Get("", Some(l));
    if cached.value.Some? {
      return cached.value.value;
    }
    x := new I18n.FromBundle(NewEmptyResourceBundle(Some(l)));
    cache.Put("", x);
  }

  // ---------------------------------------------------------------------------------------------
  // The entry points that start from a class

  /**
   * `getI18n(Class, Locale, int)`: with READ_PROPERTIES, the nearest `i18n.properties` file of
   * the class's packages names the bundle; without one, DEFAULT_BASE_NAME does. The walk then
   * starts at the path "", so that name alone is tried, not the class's packages.
   */
  method GetI18nForClassWithFlags(cache: I18nCache, manager: I18nManager, clazz: JavaClass, l: Option<Locale>,
                                  flags: bv32, system: ClassLoader) returns (r: Result<I18n, JavaException>)
    modifies cache, manager
    ensures var ld := GetClassLoader(clazz.loader, system);
            Resolved(cache, manager, "", BaseNameFor(clazz, ld, flags), ld, l, flags, r)
  {
    var ld := GetClassLoader(clazz.loader, system);
    var bundleName: Option<string> := None;
    if IsReadPropertiesSet(flags) {
      var path := clazz.name;
      var more := true;
      while more
        invariant more ==> bundleName.None? && FirstBaseName(Prefixes(path), ld) == FirstBaseName(Prefixes(clazz.name), ld)
        invariant !more ==> bundleName == FirstBaseName(Prefixes(clazz.name), ld)
        decreases if more then |path| + 1 else 0
      {
        var index := LastIndexOf(path, '.');
        ghost var whole := path;
        path := if index != -1 then path[..index] else "";
        assert Prefixes(whole)[0] == path;
        assert Prefixes(whole)[1..] == if index == -1 then [] else Prefixes(path);
        bundleName := ReadFromPropertiesFile(path, ld);
        more := bundleName.None? && index != -1;
      }
    }
    var name := if bundleName.Some? then bundleName.value else DEFAULT_BASE_NAME;
    r := GetI18n(cache, manager, "", name, Some(ld), system, l, flags);
  }

  /** `getI18n(Class, Locale)`: READ_PROPERTIES. */
  method GetI18nForClassAndLocale(cache: I18nCache, manager: I18nManager, clazz: JavaClass, l: Option<Locale>,
                                  system: ClassLoader) returns (r: Result<I18n, JavaException>)
    modifies cache, manager
    ensures var ld := GetClassLoader(clazz.loader, system);
            Resolved(cache, manager, "", BaseNameFor(clazz, ld, READ_PROPERTIES), ld, l, READ_PROPERTIES, r)
  {
    r := GetI18nForClassWithFlags(cache, manager, clazz, l, READ_PROPERTIES, system);
  }

  /** `getI18n(Class)`: the default locale (`Locale.getDefault()`, here a parameter) and READ_PROPERTIES. */
  method GetI18nForClass(cache: I18nCache, manager: I18nManager, clazz: JavaClass, defaultLocale: Locale,
                         system: ClassLoader) returns (r: Result<I18n, JavaException>)
    modifies cache, manager
    ensures var ld := GetClassLoader(clazz.loader, system);
            Resolved(cache, manager, "", BaseNameFor(clazz, ld, READ_PROPERTIES), ld, Some(defaultLocale), READ_PROPERTIES, r)
  {
    r := GetI18nForClassAndLocale(cache, manager, clazz, Some(defaultLocale), system);
  }

  /** `getI18n(Class, String, Locale, int)`: the package walk from the class's own name. */
  method GetI18nForBundleWithFlags(cache: I18nCache, manager: I18nManager, clazz: JavaClass, bundleName: string,
                                   l: Option<Locale>, flags: bv32, system: ClassLoader) returns (r: Result<I18n, JavaException>)
    modifies cache, manager
    ensures Resolved(cache, manager, clazz.name, bundleName, GetClassLoader(clazz.loader, system), l, flags, r)
  {
    r := GetI18n(cache, manager, clazz.name, bundleName, clazz.loader, system, l, flags);
  }

  /** `getI18n(Class, String, Locale)`: DEFAULT flags. */
  method GetI18nForBundleAndLocale(cache: I18nCache, manager: I18nManager, clazz: JavaClass, bundleName: string,
                                   l: Option<Locale>, system: ClassLoader) returns (r: Result<I18n, JavaException>)
    modifies cache, manager
    ensures Resolved(cache, manager, clazz.name, bundleName, GetClassLoader(clazz.loader, system), l, DEFAULT, r)
  {
    r := GetI18nForBundleWithFlags(cache, manager, clazz, bundleName, l, DEFAULT, system);
  }

  /** `getI18n(Class, String)`: the default locale and DEFAULT flags. */
  method GetI18nForBundle(cache: I18nCache, manager: I18nManager, clazz: JavaClass, bundleName: string,
                          defaultLocale: Locale, system: ClassLoader) returns (r: Result<I18n, JavaException>)
    modifies cache, manager
    ensures Resolved(cache, manager, clazz.name, bundleName, GetClassLoader(clazz.loader, system), Some(defaultLocale), DEFAULT, r)
  {
    r := GetI18nForBundleAndLocale(cache, manager, clazz, bundleName, Some(defaultLocale), system);
  }

  /**
   * `clearCache()`: every cached instance is removed from the manager (one occurrence per time it
   * is visited), then the cache is emptied.
   */
  method ClearCache(cache: I18nCache, manager: I18nManager) returns (order: seq<string>, visited: seq<I18n>)
    modifies cache, manager
    ensures cache.byPackage == map[]
    ensures forall i, j :: 0 <= i < j < |order| ==> order[i] != order[j]
    ensures forall k :: k in order <==> k in old(cache.byPackage)
    ensures visited == Flatten(old(cache.byPackage), order)
    ensures forall x :: x in visited <==> x in old(cache.Objects())
    ensures manager.i18ns == RemoveAll(old(manager.i18ns), visited)
    ensures multiset(manager.i18ns) == multiset(old(manager.i18ns)) - multiset(visited)
    ensures manager.listeners == old(manager.listeners)
  {
    order, visited := cache.Visit();
    manager.RemoveEach(visited);
    cache.Clear();
  }

  // ---------------------------------------------------------------------------------------------
  // Properties of the walk

  /** Once a found instance is cached under its name, the same walk stops at it in the cache. */
  lemma {:induction false} LoadedInstanceIsCached(m: map<string, seq<I18n>>, names: seq<string>, ld: ClassLoader, l: Locale, x: I18n)
    requires Resolve(m, names, ld, l).Load?
    requires x.locale == Some(l)
    ensures var name := Resolve(m, names, ld, l).name;
            Resolve(m[name := ListIn(m, name) + [x]], names, ld, l) == CacheHit(x)
  {
    var name := Resolve(m, names, ld, l).name;
    var m' := m[name := ListIn(m, name) + [x]];
    assert forall y :: y in ListIn(m, names[0]) ==> y in Instances(m);
    assert forall y :: y in ListIn(m', names[0]) ==> y in Instances(m');
    if names[0] == name {
      FirstWithLocaleAppend(ListIn(m, name), x, l);
    } else {
      assert ListIn(m', names[0]) == ListIn(m, names[0]);
      LoadedInstanceIsCached(m, names[1..], ld, l, x);
    }
  }

  /** Storing under a name the walk never tries leaves the walk's answer as it was. */
  lemma {:induction false} ResolveIgnoresOtherNames(m: map<string, seq<I18n>>, names: seq<string>, ld: ClassLoader, l: Locale,
                                                    k: string, v: seq<I18n>)
    requires k !in names
    ensures Resolve(m[k := v], names, ld, l) == Resolve(m, names, ld, l)
  {
    if |names| > 0 {
      var m' := m[k := v];
      assert forall y :: y in ListIn(m, names[0]) ==> y in Instances(m);
      assert forall y :: y in ListIn(m', names[0]) ==> y in Instances(m');
      assert ListIn(m', names[0]) == ListIn(m, names[0]);
      ResolveIgnoresOtherNames(m, names[1..], ld, l, k, v);
    }
  }

  /** No candidate is "" unless the bundle name is. */
  lemma CandidatesAreNonEmpty(path: string, bundleName: string)
    requires bundleName != ""
    ensures "" !in Candidates(path, bundleName)
  {
    var c := Candidates(path, bundleName);
    forall j | 0 <= j < |c| ensures c[j] != "" {
      assert |c[j]| >= |bundleName|;
    }
  }

  // ---------------------------------------------------------------------------------------------
  // Consequences for repeated lookups

  /** Without NO_CACHE a second identical lookup answers the very instance the first one answered. */
  method LookupTwice(cache: I18nCache, manager: I18nManager, path: string, bundleName: string, ld: ClassLoader,
                     l: Locale, flags: bv32) returns (first: Option<I18n>, second: Option<I18n>)
    requires !IsNoCacheSet(flags)
    modifies cache, manager
    ensures first.Some? <==> !old(Resolve(cache.byPackage, Candidates(path, bundleName), ld, l)).NotFound?
    ensures first.Some? ==> second == first
  {
    ghost var names := Candidates(path, bundleName);
    ghost var m0 := cache.byPackage;
    label Start:
    first := Walk(cache, manager, path, bundleName, ld, l, flags);
    assert forall x | x in Instances(m0) :: unchanged@Start(x);
    assert Resolve(m0, names, ld, l) == old(Resolve(cache.byPackage, names, ld, l));
    if first.Some? {
      if Resolve(m0, names, ld, l).Load? {
        LoadedInstanceIsCached(m0, names, ld, l, first.value);
      }
      second := Walk(cache, manager, path, bundleName, ld, l, flags);
    } else {
      second := None;
    }
  }

  /** With NO_CACHE a bundle that is found is loaded afresh each time: two lookups, two instances. */
  method LookupTwiceWithoutCaching(cache: I18nCache, manager: I18nManager, path: string, bundleName: string,
                                   ld: ClassLoader, l: Locale, flags: bv32) returns (first: Option<I18n>, second: Option<I18n>)
    requires IsNoCacheSet(flags)
    modifies cache, manager
    ensures old(Resolve(cache.byPackage, Candidates(path, bundleName), ld, l)).Load? ==>
              first.Some? && second.Some? && first.value != second.value
    ensures cache.byPackage == old(cache.byPackage) && manager.i18ns == old(manager.i18ns)
  {
    ghost var names := Candidates(path, bundleName);
    ghost var m0 := cache.byPackage;
    label Start:
    first := Walk(cache, manager, path, bundleName, ld, l, flags);
    assert forall x | x in Instances(m0) :: unchanged@Start(x);
    assert Resolve(m0, names, ld, l) == old(Resolve(cache.byPackage, names, ld, l));
    if first.None? {
      return first, None;
    }
    second := Walk(cache, manager, path, bundleName, ld, l, flags);
  }

  /**
   * When no bundle is found, FALLBACK answers one shared instance of the empty bundle, even with
   * NO_CACHE: the second lookup finds the instance the first one stored under "".
   */
  method FallbackTwice(cache: I18nCache, manager: I18nManager, path: string, bundleName: string,
                       ld: ClassLoader, l: Locale, flags: bv32) returns (first: Result<I18n, JavaException>, second: Result<I18n, JavaException>)
    requires IsFallbackSet(flags) && bundleName != ""
    modifies cache, manager
    ensures old(Resolve(cache.byPackage, Candidates(path, bundleName), ld, l)).NotFound? ==>
              first.Ok? && second == first &&
              (old(FirstWithLocale(cache.ListOf(""), l)).None? ==> first.value.bundle == Empty(Some(l)))
  {
    ghost var names := Candidates(path, bundleName);
    ghost var m0 := cache.byPackage;
    label Start:
    first := GetI18n(cache, manager, path, bundleName, Some(ld), ld, Some(l), flags);
    assert forall x | x in Instances(m0) :: unchanged@Start(x);
    assert Resolve(m0, names, ld, l) == old(Resolve(cache.byPackage, names, ld, l));
    ghost var stored := old(FirstWithLocale(cache.ListOf(""), l));
    assert forall x :: x in ListIn(m0, "") ==> x in Instances(m0);
    assert FirstWithLocale(ListIn(m0, ""), l) == stored;
    ghost var notFound := Resolve(m0, names, ld, l).NotFound?;
    if notFound {
      CandidatesAreNonEmpty(path, bundleName);
      if stored.Some? {
        assert first == Ok(stored.value) && cache.byPackage == m0;
      } else {
        assert cache.byPackage == m0["" := ListIn(m0, "") + [first.value]];
        assert first.value.locale == Some(l);
      }
      FallbackEntryCached(m0, cache.byPackage, names, ld, l, first.value);
    }
    ghost var firstBundle := if first.Ok? then first.value.bundle else Empty(None);
    second := FallbackAgain(cache, manager, path, bundleName, ld, l, flags,
                            if notFound && first.Ok? then Some(first.value) else None);
    assert first.Ok? ==> first.value.bundle == firstBundle;
  }

  /**
   * A lookup that walks to no bundle while "" already holds an instance `x` for the locale answers
   * `x` under FALLBACK. `expected` names `x`, or is `None` when nothing is known beforehand.
   */
  method FallbackAgain(cache: I18nCache, manager: I18nManager, path: string, bundleName: string,
                       ld: ClassLoader, l: Locale, flags: bv32, ghost expected: Option<I18n>)
    returns (r: Result<I18n, JavaException>)
    requires IsFallbackSet(flags)
    requires expected.Some? ==>
               Resolve(cache.byPackage, Candidates(path, bundleName), ld, l).NotFound? &&
               FirstWithLocale(cache.ListOf(""), l) == Some(expected.value)
    modifies cache, manager
    ensures expected.Some? ==> r == Ok(expected.value)
  {
    r := GetI18n(cache, manager, path, bundleName, Some(ld), ld, Some(l), flags);
  }

  /**
   * After a walk over `names` that found nothing, the entry `x` the FALLBACK branch answered is
   * the first one for `l` under "", and storing it did not change what the walk finds.
   */
  lemma FallbackEntryCached(m0: map<string, seq<I18n>>, m1: map<string, seq<I18n>>, names: seq<string>,
                            ld: ClassLoader, l: Locale, x: I18n)
    requires "" !in names && Resolve(m0, names, ld, l) == NotFound && x.locale == Some(l)
    requires (FirstWithLocale(ListIn(m0, ""), l) == Some(x) && m1 == m0) ||
             (FirstWithLocale(ListIn(m0, ""), l).None? && m1 == m0["" := ListIn(m0, "") + [x]])
    ensures Resolve(m1, names, ld, l) == NotFound && FirstWithLocale(ListIn(m1, ""), l) == Some(x)
  {
    if m1 != m0 {
      ResolveIgnoresOtherNames(m0, names, ld, l, "", ListIn(m0, "") + [x]);
      FirstWithLocaleAppend(ListIn(m0, ""), x, l);
    }
  }
}
