// The Translator of the i18n middleware (i18n/i18n.go): its configuration,
// the live bundle and the time of the last successful load; Load, New,
// AddTranslation, needsReload, extractLanguage, the per-request caching of
// Middleware, Refresh, the argument classification of translate, and
// AvailableLanguages. Localizing a message is go-i18n's business: the model
// stops at the call it would make.

module I18n {
  import opened GoStd
  import opened Host
  import opened Negotiation
  import opened Catalog
  import GoSort

  // ---------------------------------------------------------------------------
  // The request context
  // ---------------------------------------------------------------------------

  /** i18n.NewLocalizer(t.Bundle, langs...): a localizer bound to the
      Translator's live bundle and to a preference list. */
  datatype Localizer = Localizer(langs: seq<string>)

  /** What the context's value store holds: the mode string under "env", the
      preference list under "languages", the localizer under "T", the view
      helper under the helper name, or some value of the application's. */
  datatype Value =
    | Str(s: string)
    | Langs(langs: seq<string>)
    | Loc(localizer: Localizer)
    | TranslateHelper
    | Opaque

  const LanguagesKey := "languages"
  const LocalizerKey := "T"
  const EnvKey := "env"

  /** The buffalo context of one request: what it carries in (read-only), its
      value store and the lines written to its logger. */
  class Context {
    const request: Request
    var store: map<string, Value>
    var log: seq<LogLine>

    constructor (request: Request, store: map<string, Value>)
      ensures this.request == request && this.store == store && log == []
    {
      this.request := request;
      this.store := store;
      log := [];
    }
  }

  /** c.Value("env").(string): the mode the request runs in (Go panics when the
      value is missing or not a string). */
  predicate HasEnv(store: map<string, Value>)
  {
    EnvKey in store && store[EnvKey].Str?
  }

  /** c.Value("languages").([]string) succeeds wherever Middleware reads it. */
  predicate LanguagesReadable(store: map<string, Value>)
  {
    LanguagesKey in store && LocalizerKey !in store ==> store[LanguagesKey].Langs?
  }

  /** The value store Middleware leaves for the next handler: "languages" set to
      the given list only when absent, "T" set to a localizer over the
      "languages" slot only when absent, and the view helper set in any case. */
  function CachedStore(store: map<string, Value>, langs: seq<string>, helperName: string): map<string, Value>
    requires LanguagesReadable(store)
  {
    var withLangs := if LanguagesKey in store then store else store[LanguagesKey := Langs(langs)];
    var withT :=
      if LocalizerKey in withLangs then withLangs
      else withLangs[LocalizerKey := Loc(Localizer(withLangs[LanguagesKey].langs))];
    withT[helperName := TranslateHelper]
  }

  /** Middleware's caching: a slot already set keeps its value, an absent
      "languages" slot gets the fresh list, an absent "T" slot gets a localizer
      over whatever "languages" then holds; nothing else but the helper changes. */
  lemma CachedStoreSlots(store: map<string, Value>, langs: seq<string>, helperName: string)
    requires LanguagesReadable(store)
    requires helperName != LanguagesKey && helperName != LocalizerKey
    ensures var s := CachedStore(store, langs, helperName);
      s.Keys == store.Keys + {LanguagesKey, LocalizerKey, helperName} &&
      s[LanguagesKey] == (if LanguagesKey in store then store[LanguagesKey] else Langs(langs)) &&
      s[LocalizerKey] == (if LocalizerKey in store then store[LocalizerKey]
                          else Loc(Localizer(s[LanguagesKey].langs))) &&
      s[helperName] == TranslateHelper &&
      (forall k :: k in store && k != LanguagesKey && k != LocalizerKey && k != helperName ==> s[k] == store[k])
  {
  }

  /** A second pass over a context changes nothing: the list and the localizer
      cached by the first pass are kept, whatever a new extraction would give. */
  lemma CachedStoreIdempotent(store: map<string, Value>, first: seq<string>, second: seq<string>, helperName: string)
    requires LanguagesReadable(store)
    requires helperName != LanguagesKey && helperName != LocalizerKey
    ensures LanguagesReadable(CachedStore(store, first, helperName))
    ensures CachedStore(CachedStore(store, first, helperName), second, helperName) ==
      CachedStore(store, first, helperName)
  {
    var once := CachedStore(store, first, helperName);
    CachedStoreSlots(store, first, helperName);
    CachedStoreSlots(once, second, helperName);
    var twice := CachedStore(once, second, helperName);
    assert twice.Keys == once.Keys;
    assert forall k :: k in once ==> twice[k] == once[k];
  }

  /** The view helper's name may be any key; when it is "languages" it
      overwrites the cached list, as the source's last c.Set does. */
  lemma HelperNameOverwritesLanguages(store: map<string, Value>, langs: seq<string>)
    requires LanguagesReadable(store)
    ensures CachedStore(store, langs, LanguagesKey)[LanguagesKey] == TranslateHelper
  {
  }

  /** What Middleware returns: the load error that stopped it before the next
      handler, or the hand-over to the next handler. */
  datatype Handled = Aborted(err: LoadError) | Next

  // ---------------------------------------------------------------------------
  // translate: which argument is the plural count and which the template data
  // ---------------------------------------------------------------------------

  /** The dynamic type of a variadic argument. */
  datatype Kind =
    | Int | Int8 | Int16 | Int32 | Int64
    | Uint | Uint8 | Uint16 | Uint32 | Uint64
    | Float32 | Float64
    | String | Bool | Map | Struct | Nil

  /** A variadic argument: its type and its value as written (opaque here). */
  datatype Arg = Arg(kind: Kind, text: string)

  /** The types of the type switch's numeric case. */
  predicate IsPluralCountKind(k: Kind)
  {
    k in {Int, Int8, Int16, Int32, Int64, Float32, Float64}
  }

  /** i18n.LocalizeConfig: the message id, the template data and the plural
      count. None stands for a field left nil; Some(Arg(Nil, _)) is an untyped
      nil argument copied into the field, which Go also holds as nil. */
  datatype LocalizeConfig = LocalizeConfig(messageID: string, templateData: Option<Arg>, pluralCount: Option<Arg>)

  /** The call translate hands to go-i18n: localizer.Localize(&config). */
  datatype LocalizeCall = LocalizeCall(localizer: Localizer, config: LocalizeConfig)

  /** translate's classification of its arguments. */
  function Classify(translationID: string, args: seq<Arg>): (c: LocalizeConfig)
    ensures c.messageID == translationID
    ensures c.pluralCount.Some? <==> args != [] && IsPluralCountKind(args[0].kind)
    ensures c.pluralCount.Some? ==> c.pluralCount.value == args[0]
    ensures c.templateData.Some? <==> args != [] && (!IsPluralCountKind(args[0].kind) || |args| > 1)
    ensures c.templateData.Some? && IsPluralCountKind(args[0].kind) ==> c.templateData.value == args[1]
    ensures c.templateData.Some? && !IsPluralCountKind(args[0].kind) ==> c.templateData.value == args[0]
  {
    if |args| > 0 then
      if IsPluralCountKind(args[0].kind) then
        LocalizeConfig(translationID, if |args| > 1 then Some(args[1]) else None, Some(args[0]))
      else
        LocalizeConfig(translationID, Some(args[0]), None)
    else
      LocalizeConfig(translationID, None, None)
  }

  /** Arguments past the second are ignored. */
  lemma {:induction false} ClassifyIgnoresExtraArgs(translationID: string, args: seq<Arg>)
    requires |args| > 2
    ensures Classify(translationID, args) == Classify(translationID, args[..2])
  {
    var short := args[..2];
    assert short[0] == args[0] && short[1] == args[1];
  }

  /** A count given as a string, such as "123.45", is not taken as the plural
      count: it becomes the template data. */
  lemma StringCountIsTemplateData(translationID: string, count: string, rest: seq<Arg>)
    ensures Classify(translationID, [Arg(String, count)] + rest) ==
      LocalizeConfig(translationID, Some(Arg(String, count)), None)
  {
  }

  /** Unsigned integers are not plural counts either. */
  lemma UnsignedCountIsTemplateData(translationID: string, count: Arg)
    requires count.kind in {Uint, Uint8, Uint16, Uint32, Uint64}
    ensures Classify(translationID, [count]).pluralCount.None?
    ensures Classify(translationID, [count]).templateData == Some(count)
  {
  }

  // ---------------------------------------------------------------------------
  // The Translator
  // ---------------------------------------------------------------------------

  /** What New reports: the default language was rejected by language.Parse, or
      the first load failed. */
  datatype NewError = BadDefaultLanguage(lang: string) | InitialLoadFailed(err: LoadError)

  /** Bundle.AddMessages refuses a tag it has no plural rule for. */
  datatype AddError = NoPluralRule(tag: string)

  class Translator {
    var defaultLanguage: string
    var helperName: string
    var languageExtractors: seq<Extractor>
    var languageExtractorOptions: Options
    var bundle: Bundle
    var loadingTime: int

    /** The configuration New installs around a fresh bundle, before the first load. */
    constructor (defaultLanguage: string, defaultTag: string)
      ensures this.defaultLanguage == defaultLanguage
      ensures helperName == "t"
      ensures languageExtractorOptions ==
        map[CookieOption := "lang", SessionOption := "lang", URLPrefixOption := "lang"]
      ensures languageExtractors == DefaultExtractors
      ensures bundle == NewBundle(defaultTag)
      ensures loadingTime == ZeroTime
    {
      this.defaultLanguage := defaultLanguage;
      helperName := "t";
      languageExtractorOptions := map[CookieOption := "lang", SessionOption := "lang", URLPrefixOption := "lang"];
      languageExtractors := DefaultExtractors;
      bundle := NewBundle(defaultTag);
      loadingTime := ZeroTime;
    }

    /** Load walks the tree and parses every file straight into the live bundle.
        The first failure stops it and is returned, and what was parsed before
        it stays registered; the load time advances to `now` only when the whole
        walk succeeds. */
    method Load(tree: seq<Entry>, now: int) returns (err: Option<LoadError>)
      requires now != ZeroTime
      modifies this`bundle, this`loadingTime
      ensures bundle == LoadWalk(old(bundle), tree).bundle
      ensures err == LoadWalk(old(bundle), tree).err
      ensures loadingTime == if err.None? then now else old(loadingTime)
    {
      var i := 0;
      while i < |tree|
        invariant 0 <= i <= |tree|
        invariant LoadWalk(bundle, tree[i..]) == LoadWalk(old(bundle), tree)
        invariant loadingTime == old(loadingTime)
      {
        var e := tree[i];
        assert tree[i..][0] == e && tree[i..][1..] == tree[i + 1..];
        if e.walkFailed {
          return Some(WalkFailed(e.path));
        }
        if !e.isDir {
          match e.file
          case Unreadable =>
            return Some(ReadFailed(e.path));
          case Unparsable =>
            return Some(ParseFailed(Base(e.path)));
          case Messages(tag) =>
            bundle := Register(bundle, Registration(File(RegistryKey(e.path)), tag));
        }
        i := i + 1;
      }
      loadingTime := now;
      return None;
    }

    /** AddTranslation registers messages under a tag directly in the live bundle. */
    method AddTranslation(tag: string, messageIDs: seq<string>, hasPluralRule: bool) returns (err: Option<AddError>)
      modifies this`bundle
      ensures err == if hasPluralRule then None else Some(NoPluralRule(tag))
      ensures bundle == if hasPluralRule then Register(old(bundle), Registration(Direct(messageIDs), tag)) else old(bundle)
    {
      if !hasPluralRule {
        return Some(NoPluralRule(tag));
      }
      bundle := Register(bundle, Registration(Direct(messageIDs), tag));
      return None;
    }

    /** needsReload: the walk flips `result` for every file newer than the load
        time and logs it; a walk error stops the walk and is logged. */
    method NeedsReload(ctx: Context, tree: seq<Entry>) returns (result: bool)
      requires HasEnv(ctx.store)
      modifies ctx`log
      ensures result == ReloadCheck(ctx.store[EnvKey].s, loadingTime, tree).changed
      ensures ctx.log == old(ctx.log) + ReloadCheck(ctx.store[EnvKey].s, loadingTime, tree).log
    {
      if ctx.store[EnvKey].s != Development {
        return false;
      }
      if loadingTime == ZeroTime {
        return true;
      }
      result := false;
      ghost var written: seq<LogLine> := [];
      var i := 0;
      while i < |tree|
        invariant 0 <= i <= |tree|
        invariant ScanWalk(loadingTime, tree).changed == (result || ScanWalk(loadingTime, tree[i..]).changed)
        invariant ScanWalk(loadingTime, tree).log == written + ScanWalk(loadingTime, tree[i..]).log
        invariant ctx.log == old(ctx.log) + written
      {
        var e := tree[i];
        assert tree[i..][0] == e && tree[i..][1..] == tree[i + 1..];
        if ScanStops(e) {
          ctx.log := ctx.log + [LogError(e.path)];
          written := written + [LogError(e.path)];
          return;
        }
        if ChangedSince(e, loadingTime) {
          ctx.log := ctx.log + [LogInfo(Base(e.path))];
          written := written + [LogInfo(Base(e.path))];
          result := true;
        }
        i := i + 1;
      }
    }

    /** extractLanguage: the outputs of the extractors, in chain order, then
        the default language; each extractor's log lines go to the context. */
    method ExtractLanguage(ctx: Context) returns (langs: seq<string>)
      requires AllConfigured(languageExtractors, languageExtractorOptions)
      modifies ctx`log
      ensures langs == PreferenceList(languageExtractors, languageExtractorOptions, ctx.request, defaultLanguage)
      ensures ctx.log == old(ctx.log) + Chain(languageExtractors, languageExtractorOptions, ctx.request).log
    {
      var es, o := languageExtractors, languageExtractorOptions;
      langs := [];
      var i := 0;
      while i < |es|
        invariant 0 <= i <= |es|
        invariant AllConfigured(es[..i], o)
        invariant langs == Chain(es[..i], o, ctx.request).langs
        invariant ctx.log == old(ctx.log) + Chain(es[..i], o, ctx.request).log
      {
        var out := Run(es[i], o, ctx.request);
        assert es[..i + 1][..i] == es[..i] && es[..i + 1][i] == es[i];
        langs := langs + out.langs;
        ctx.log := ctx.log + out.log;
        i := i + 1;
      }
      assert es[..i] == es;
      langs := langs + [defaultLanguage];
    }

    /** The middleware's work on one request: reload when needed (a failed
        reload returns before the next handler), cache the preference list and
        the localizer in the context when absent, and install the view helper. */
    method Middleware(ctx: Context, tree: seq<Entry>, now: int) returns (outcome: Handled)
      requires now != ZeroTime
      requires HasEnv(ctx.store) && LanguagesReadable(ctx.store)
      requires LanguagesKey !in ctx.store ==> AllConfigured(languageExtractors, languageExtractorOptions)
      modifies this`bundle, this`loadingTime, ctx`store, ctx`log
      ensures var check := ReloadCheck(old(ctx.store)[EnvKey].s, old(loadingTime), tree);
        var walk := LoadWalk(old(bundle), tree);
        bundle == (if check.changed then walk.bundle else old(bundle)) &&
        loadingTime == (if check.changed && walk.err.None? then now else old(loadingTime)) &&
        outcome == (if check.changed && walk.err.Some? then Aborted(walk.err.value) else Next) &&
        (outcome.Aborted? ==> ctx.store == old(ctx.store) && ctx.log == old(ctx.log) + check.log) &&
        (outcome.Next? && LanguagesKey in old(ctx.store) ==>
          ctx.store == CachedStore(old(ctx.store), [], helperName) && ctx.log == old(ctx.log) + check.log) &&
        (outcome.Next? && LanguagesKey !in old(ctx.store) ==>
          ctx.store == CachedStore(old(ctx.store),
            PreferenceList(languageExtractors, languageExtractorOptions, ctx.request, defaultLanguage), helperName) &&
          ctx.log == old(ctx.log) + check.log + Chain(languageExtractors, languageExtractorOptions, ctx.request).log)
    {
      var reload := NeedsReload(ctx, tree);
      if reload {
        var err := Load(tree, now);
        if err.Some? {
          return Aborted(err.value);
        }
      }
      if LanguagesKey !in ctx.store {
        var langs := ExtractLanguage(ctx);
        ctx.store := ctx.store[LanguagesKey := Langs(langs)];
      }
      if LocalizerKey !in ctx.store {
        var langs := ctx.store[LanguagesKey].langs;
        ctx.store := ctx.store[LocalizerKey := Loc(Localizer(langs))];
      }
      ctx.store := ctx.store[helperName := TranslateHelper];
      return Next;
    }

    /** Refresh: the new language, then a fresh extraction, becomes the
        context's preference list, with a localizer over it. */
    method Refresh(ctx: Context, newLang: string)
      requires AllConfigured(languageExtractors, languageExtractorOptions)
      modifies ctx`store, ctx`log
      ensures var langs := [newLang] + PreferenceList(languageExtractors, languageExtractorOptions, ctx.request, defaultLanguage);
        ctx.store == old(ctx.store)[LanguagesKey := Langs(langs)][LocalizerKey := Loc(Localizer(langs))]
      ensures ctx.log == old(ctx.log) + Chain(languageExtractors, languageExtractorOptions, ctx.request).log
    {
      var extracted := ExtractLanguage(ctx);
      var langs := [newLang] + extracted;
      ctx.store := ctx.store[LanguagesKey := Langs(langs)];
      ctx.store := ctx.store[LocalizerKey := Loc(Localizer(langs))];
    }

    /** Translate: the context's localizer, and the classified arguments. */
    function Translate(ctx: Context, translationID: string, args: seq<Arg>): (call: LocalizeCall)
      reads ctx
      requires LocalizerKey in ctx.store && ctx.store[LocalizerKey].Loc?
      ensures call.localizer == ctx.store[LocalizerKey].localizer
      ensures call.config == Classify(translationID, args) && call.config.messageID == translationID
    {
      LocalizeCall(ctx.store[LocalizerKey].localizer, Classify(translationID, args))
    }

    /** TranslateWithLang: a localizer over the one language given, and the
        classified arguments. */
    function TranslateWithLang(lang: string, translationID: string, args: seq<Arg>): (call: LocalizeCall)
      ensures call.localizer.langs == [lang]
      ensures call.config == Classify(translationID, args) && call.config.messageID == translationID
    {
      LocalizeCall(Localizer([lang]), Classify(translationID, args))
    }

    /** AvailableLanguages: the bundle's tags, sorted; each appears once, and a
        language is listed exactly when it is the bundle's own tag or some
        registration was made under it. */
    method AvailableLanguages() returns (languages: seq<string>)
      ensures GoSort.Sorted(languages)
      ensures multiset(languages) == multiset(LanguageTags(bundle))
      ensures |languages| == |LanguageTags(bundle)|
      ensures NoDuplicates(languages)
      ensures forall l :: l in languages <==>
        l == bundle.defaultTag || exists i :: 0 <= i < |bundle.registrations| && bundle.registrations[i].tag == l
    {
      var tags := LanguageTags(bundle);
      var a := new string[|tags|];
      var i := 0;
      while i < |tags|
        invariant 0 <= i <= |tags|
        invariant a[..i] == tags[..i]
      {
        a[i] := tags[i];
        i := i + 1;
      }
      assert a[..] == tags;
      GoSort.SortStrings(a);
      languages := a[..];
      assert |multiset(languages)| == |multiset(tags)|;
      LanguageTagsSpec(bundle, "");
      PermutationNoDuplicates(languages, tags);
      forall l ensures l in languages <==> l in tags {
        assert l in languages <==> multiset(languages)[l] > 0;
        assert l in tags <==> multiset(tags)[l] > 0;
      }
      forall l ensures l in tags <==>
        l == bundle.defaultTag || exists i :: 0 <= i < |bundle.registrations| && bundle.registrations[i].tag == l
      {
        LanguageTagsSpec(bundle, l);
      }
    }
  }

  /** New: a Translator with the default configuration around a bundle for the
      parsed default language, loaded once. A default language language.Parse
      rejects gives no Translator; a failed first load gives the Translator
      together with the error. */
  method New(tree: seq<Entry>, defaultLanguage: string, parsedTag: Option<string>, now: int)
    returns (t: Translator?, err: Option<NewError>)
    requires now != ZeroTime
    ensures parsedTag.None? ==> t == null && err == Some(BadDefaultLanguage(defaultLanguage))
    ensures parsedTag.Some? ==> (
      t != null && fresh(t) &&
      t.defaultLanguage == defaultLanguage && t.helperName == "t" &&
      t.languageExtractors == DefaultExtractors &&
      t.languageExtractorOptions == map[CookieOption := "lang", SessionOption := "lang", URLPrefixOption := "lang"] &&
      t.bundle == LoadWalk(NewBundle(parsedTag.value), tree).bundle &&
      (err == match LoadWalk(NewBundle(parsedTag.value), tree).err
              case None => None
              case Some(e) => Some(InitialLoadFailed(e))) &&
      t.loadingTime == (if err.None? then now else ZeroTime))
  {
    if parsedTag.None? {
      return null, Some(BadDefaultLanguage(defaultLanguage));
    }
    t := new Translator(defaultLanguage, parsedTag.value);
    var loadErr := t.Load(tree, now);
    err := match loadErr
      case None => None
      case Some(e) => Some(InitialLoadFailed(e));
  }
}
