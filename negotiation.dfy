// Language-preference negotiation: the four extractors that derive candidate
// languages from one request signal each, the Accept-Language splitting the
// header extractor relies on, and the ordered concatenation of a chain of
// extractors (i18n/i18n.go, lines 265-346).

module Negotiation {
  import opened GoStd
  import opened Host

  /** LanguageExtractorOptions. Values are strings: every built-in extractor
      asserts that type for the option it reads. */
  type Options = map<string, string>

  const CookieOption := "CookieName"
  const SessionOption := "SessionName"
  const URLPrefixOption := "URLPrefixName"

  /** What one extractor returns, with the log lines it wrote on the way. */
  datatype Extracted = Extracted(langs: seq<string>, log: seq<LogLine>)

  /** A LanguageExtractor. A custom extractor is a function of the options and the request. */
  datatype Extractor =
    | CookieExtractor
    | SessionExtractor
    | HeaderExtractor
    | URLPrefixExtractor
    | Custom(run: (Options, Request) -> seq<string>)

  /** The chain New installs, highest precedence first. */
  const DefaultExtractors: seq<Extractor> := [CookieExtractor, SessionExtractor, HeaderExtractor]

  // ---------------------------------------------------------------------------
  // Accept-Language (a simplified reading of section 5.3.5 of RFC 7231)
  // ---------------------------------------------------------------------------

  /** The language range of one comma-separated piece of the header: the piece
      trimmed of spaces, cut at its first ';' (the quality value is dropped). */
  function LanguageRange(piece: string): string
  {
    Split(TrimSpaces(piece), ';')[0]
  }

  /** A range is the trimmed piece up to its first ';' (or all of it): an infix
      of the piece that starts with no space and holds no ';'. */
  lemma LanguageRangeSpec(piece: string)
    ensures var r := LanguageRange(piece);
      ';' !in r && (r == [] || r[0] != ' ') &&
      r <= TrimSpaces(piece) &&
      (|r| == |TrimSpaces(piece)| || TrimSpaces(piece)[|r|] == ';') &&
      LeadingSpaces(piece) + |r| <= |piece| &&
      r == piece[LeadingSpaces(piece)..LeadingSpaces(piece) + |r|]
  {
    var trimmed := TrimSpaces(piece);
    var r := LanguageRange(piece);
    TrimSpacesSpec(piece);
    SplitFirstPiece(trimmed, ';');
    assert r == trimmed[..|r|];
  }

  /** The language ranges of a list of pieces, in order. */
  function Ranges(pieces: seq<string>): (r: seq<string>)
    ensures |r| == |pieces|
  {
    if pieces == [] then []
    else [LanguageRange(pieces[0])] + Ranges(pieces[1..])
  }

  /** parseAcceptLanguage, as a value: the language ranges of the comma-separated
      pieces of the header. */
  function AcceptLanguageTags(header: string): seq<string>
  {
    Ranges(Split(header, ','))
  }

  /** Entry k of the ranges is the range of piece k: one entry per piece, in order. */
  lemma {:induction false} RangesAt(pieces: seq<string>, k: nat)
    requires k < |pieces|
    ensures Ranges(pieces)[k] == LanguageRange(pieces[k])
  {
    if k > 0 {
      RangesAt(pieces[1..], k - 1);
    }
  }

  /** parseAcceptLanguage returns one entry per comma-separated piece of the
      header, in header order: the piece trimmed of spaces and cut at its first
      ';'. */
  lemma AcceptLanguageTagsSpec(header: string, i: nat)
    requires i <= Count(header, ',')
    ensures |AcceptLanguageTags(header)| == Count(header, ',') + 1
    ensures AcceptLanguageTags(header)[i] == LanguageRange(Split(header, ',')[i])
  {
    RangesAt(Split(header, ','), i);
  }

  /** No entry of parseAcceptLanguage's result holds a ',' or a ';'. */
  lemma AcceptLanguageTagsClean(header: string, i: nat)
    requires i < |AcceptLanguageTags(header)|
    ensures ',' !in AcceptLanguageTags(header)[i] && ';' !in AcceptLanguageTags(header)[i]
  {
    var p := Split(header, ',')[i];
    RangesAt(Split(header, ','), i);
    LanguageRangeSpec(p);
    SplitPiecesExcludeSeparator(header, ',', i);
  }

  /** parseAcceptLanguage: the loop over the comma-separated pieces. */
  method ParseAcceptLanguage(acceptLanguage: string) returns (lqs: seq<string>)
    ensures lqs == AcceptLanguageTags(acceptLanguage)
  {
    lqs := [];
    var langQStrs := Split(acceptLanguage, ',');
    var i := 0;
    while i < |langQStrs|
      invariant 0 <= i <= |langQStrs|
      invariant lqs + Ranges(langQStrs[i..]) == Ranges(langQStrs)
    {
      var trimmed := TrimSpaces(langQStrs[i]);
      var langQ := Split(trimmed, ';');
      assert langQStrs[i..][1..] == langQStrs[i + 1..];
      lqs := lqs + [langQ[0]];
      i := i + 1;
    }
  }

  /** A header of three pieces splits into those three pieces. */
  lemma SplitThree(a: string, b: string, c: string)
    requires ',' !in a && ',' !in b && ',' !in c
    ensures Split(a + [','] + b + [','] + c, ',') == [a, b, c]
  {
    assert a + [','] + b + [','] + c == a + [','] + (b + [','] + c);
    SplitWithoutSeparator(c, ',');
    SplitAtSeparator(b, c, ',');
    SplitAtSeparator(a, b + [','] + c, ',');
  }

  /** The comma-separated pieces of the example header. */
  lemma ExamplePieces()
    ensures Split("fr-FR,en;q=0.8, de", ',') == ["fr-FR", "en;q=0.8", " de"]
  {
    assert "fr-FR,en;q=0.8, de" == "fr-FR" + [','] + "en;q=0.8" + [','] + " de";
    SplitThree("fr-FR", "en;q=0.8", " de");
  }

  /** The first piece of the example is its own range. */
  lemma ExamplePlainRange()
    ensures LanguageRange("fr-FR") == "fr-FR"
  {
    assert TrimLeftSpaces("fr-FR") == "fr-FR";
    assert TrimRightSpaces("fr-FR") == "fr-FR";
    SplitWithoutSeparator("fr-FR", ';');
  }

  /** The quality value of the second piece is cut off. */
  lemma ExampleQualityRange()
    ensures LanguageRange("en;q=0.8") == "en"
  {
    assert TrimLeftSpaces("en;q=0.8") == "en;q=0.8";
    assert TrimRightSpaces("en;q=0.8") == "en;q=0.8";
    assert "en;q=0.8" == "en" + [';'] + "q=0.8";
    SplitAtSeparator("en", "q=0.8", ';');
  }

  /** The leading space of the third piece is trimmed. */
  lemma ExampleSpacedRange()
    ensures LanguageRange(" de") == "de"
  {
    assert " de"[1..] == "de";
    assert TrimLeftSpaces(" de") == "de";
    assert TrimRightSpaces("de") == "de";
    SplitWithoutSeparator("de", ';');
  }

  /** The ranges of three pieces. */
  lemma RangesThree(a: string, b: string, c: string)
    ensures Ranges([a, b, c]) == [LanguageRange(a), LanguageRange(b), LanguageRange(c)]
  {
    assert [a, b, c][1..] == [b, c];
    assert [b, c][1..] == [c];
    assert [c][1..] == [];
    assert Ranges([c]) == [LanguageRange(c)];
    assert Ranges([b, c]) == [LanguageRange(b), LanguageRange(c)];
  }

  /** A header with a quality value and a spaced piece: header order is kept,
      the spaces are trimmed and the quality value is dropped. */
  lemma AcceptLanguageExample()
    ensures AcceptLanguageTags("fr-FR,en;q=0.8, de") == ["fr-FR", "en", "de"]
  {
    var ranges := [LanguageRange("fr-FR"), LanguageRange("en;q=0.8"), LanguageRange(" de")];
    assert AcceptLanguageTags("fr-FR,en;q=0.8, de") == ranges by {
      ExamplePieces();
      RangesThree("fr-FR", "en;q=0.8", " de");
    }
    assert LanguageRange("fr-FR") == "fr-FR" by { ExamplePlainRange(); }
    assert LanguageRange("en;q=0.8") == "en" by { ExampleQualityRange(); }
    assert LanguageRange(" de") == "de" by { ExampleSpacedRange(); }
  }

  // ---------------------------------------------------------------------------
  // The extractors
  // ---------------------------------------------------------------------------

  /** Whether the options hold the key the extractor asserts to be a string
      (Go panics on a missing key). */
  predicate Configured(e: Extractor, o: Options)
  {
    match e
    case CookieExtractor => CookieOption in o
    case SessionExtractor => SessionOption in o
    case URLPrefixExtractor => URLPrefixOption in o
    case _ => true
  }

  predicate AllConfigured(es: seq<Extractor>, o: Options)
  {
    forall i :: 0 <= i < |es| ==> Configured(es[i], o)
  }

  /** CookieLanguageExtractor: the value of the named cookie, when there is such a
      cookie and its value is not empty; an error line when the name is empty. */
  function CookieLanguages(o: Options, req: Request): (r: Extracted)
    requires CookieOption in o
    ensures |r.langs| <= 1
    ensures r.langs != [] <==>
      o[CookieOption] != "" && o[CookieOption] in req.cookies && req.cookies[o[CookieOption]] != ""
    ensures r.langs != [] ==> r.langs[0] == req.cookies[o[CookieOption]]
    ensures r.log == if o[CookieOption] == "" then [LogError(CookieOption)] else []
  {
    var name := o[CookieOption];
    if name == "" then Extracted([], [LogError(CookieOption)])
    else if name in req.cookies && req.cookies[name] != "" then Extracted([req.cookies[name]], [])
    else Extracted([], [])
  }

  /** SessionLanguageExtractor: the value stored under the named session key,
      whatever it is (an empty value is contributed too); an error line when the
      name is empty. */
  function SessionLanguages(o: Options, req: Request): (r: Extracted)
    requires SessionOption in o
    ensures |r.langs| <= 1
    ensures r.langs != [] <==> o[SessionOption] != "" && o[SessionOption] in req.session
    ensures r.langs != [] ==> r.langs[0] == req.session[o[SessionOption]]
    ensures r.log == if o[SessionOption] == "" then [LogError(SessionOption)] else []
  {
    var name := o[SessionOption];
    if name == "" then Extracted([], [LogError(SessionOption)])
    else if name in req.session then Extracted([req.session[name]], [])
    else Extracted([], [])
  }

  /** HeaderLanguageExtractor: nothing for an empty Accept-Language header,
      otherwise the header's language ranges in header order. It reads no option. */
  function HeaderLanguages(req: Request): (r: Extracted)
    ensures r.log == []
    ensures req.acceptLanguage == "" ==> r.langs == []
    ensures r.langs == if req.acceptLanguage == "" then [] else AcceptLanguageTags(req.acceptLanguage)
    ensures r.langs != [] <==> req.acceptLanguage != ""
  {
    if req.acceptLanguage != "" then Extracted(AcceptLanguageTags(req.acceptLanguage), [])
    else Extracted([], [])
  }

  /** URLPrefixLanguageExtractor: the named route parameter, when it is not empty
      and the URL path starts with '/' followed by it; an error line when the
      name is empty. */
  function URLPrefixLanguages(o: Options, req: Request): (r: Extracted)
    requires URLPrefixOption in o
    ensures |r.langs| <= 1
    ensures r.langs != [] <==>
      o[URLPrefixOption] != "" && Param(req, o[URLPrefixOption]) != "" &&
      "/" + Param(req, o[URLPrefixOption]) <= req.path
    ensures r.langs != [] ==> r.langs[0] == Param(req, o[URLPrefixOption])
    ensures r.log == if o[URLPrefixOption] == "" then [LogError(URLPrefixOption)] else []
  {
    var name := o[URLPrefixOption];
    if name == "" then Extracted([], [LogError(URLPrefixOption)])
    else
      var paramLang := Param(req, name);
      if paramLang != "" && "/" + paramLang <= req.path then Extracted([paramLang], [])
      else Extracted([], [])
  }

  /** Runs one extractor. */
  function Run(e: Extractor, o: Options, req: Request): Extracted
    requires Configured(e, o)
  {
    match e
    case CookieExtractor => CookieLanguages(o, req)
    case SessionExtractor => SessionLanguages(o, req)
    case HeaderExtractor => HeaderLanguages(req)
    case URLPrefixExtractor => URLPrefixLanguages(o, req)
    case Custom(run) => Extracted(run(o, req), [])
  }

  /** The outputs of a chain of extractors, concatenated in chain order. */
  function Chain(es: seq<Extractor>, o: Options, req: Request): Extracted
    requires AllConfigured(es, o)
    decreases |es|
  {
    if es == [] then Extracted([], [])
    else
      var init := Chain(es[..|es| - 1], o, req);
      var last := Run(es[|es| - 1], o, req);
      Extracted(init.langs + last.langs, init.log + last.log)
  }

  /** How many languages the extractors of a chain contribute, in all. */
  function TotalOutput(es: seq<Extractor>, o: Options, req: Request): nat
    requires AllConfigured(es, o)
    decreases |es|
  {
    if es == [] then 0 else TotalOutput(es[1..], o, req) + |Run(es[0], o, req).langs|
  }

  /** Running a chain on a prefix of its extractors gives a prefix of its output. */
  lemma {:induction false} ChainPrefix(es: seq<Extractor>, m: nat, o: Options, req: Request)
    requires AllConfigured(es, o) && m <= |es|
    ensures AllConfigured(es[..m], o)
    ensures Chain(es[..m], o, req).langs <= Chain(es, o, req).langs
    decreases |es| - m
  {
    if m < |es| {
      var init := es[..|es| - 1];
      assert init[..m] == es[..m];
      ChainPrefix(init, m, o, req);
    } else {
      assert es[..m] == es;
    }
  }

  /** One more extractor appends its output to the chain's. */
  lemma ChainStep(es: seq<Extractor>, i: nat, o: Options, req: Request)
    requires AllConfigured(es, o) && i < |es|
    ensures AllConfigured(es[..i], o) && AllConfigured(es[..i + 1], o)
    ensures Chain(es[..i + 1], o, req).langs == Chain(es[..i], o, req).langs + Run(es[i], o, req).langs
  {
    var upTo := es[..i + 1];
    assert upTo[..i] == es[..i] && upTo[i] == es[i];
  }

  /** The chain's output is the concatenation of the extractors' outputs: its
      length is their total, and the output of extractor i starts where the
      outputs of the extractors before it end. */
  lemma ChainConcatenates(es: seq<Extractor>, i: nat, j: nat, o: Options, req: Request)
    requires AllConfigured(es, o) && i < |es|
    requires j < |Run(es[i], o, req).langs|
    ensures AllConfigured(es[..i], o)
    ensures |Chain(es, o, req).langs| == TotalOutput(es, o, req)
    ensures |Chain(es[..i], o, req).langs| + j < |Chain(es, o, req).langs|
    ensures Chain(es, o, req).langs[|Chain(es[..i], o, req).langs| + j] == Run(es[i], o, req).langs[j]
  {
    ChainLength(es, o, req);
    ChainPrefix(es, i + 1, o, req);
    ChainStep(es, i, o, req);
    var a := Chain(es[..i], o, req).langs;
    var b := Chain(es[..i + 1], o, req).langs;
    assert b[|a| + j] == Run(es[i], o, req).langs[j];
  }

  /** The length of a chain's output is the total its extractors contribute. */
  lemma {:induction false} ChainLength(es: seq<Extractor>, o: Options, req: Request)
    requires AllConfigured(es, o)
    ensures |Chain(es, o, req).langs| == TotalOutput(es, o, req)
    decreases |es|
  {
    if es != [] {
      var init := es[..|es| - 1];
      ChainLength(init, o, req);
      TotalOutputLast(es, o, req);
    }
  }

  /** The total can be counted from the back. */
  lemma {:induction false} TotalOutputLast(es: seq<Extractor>, o: Options, req: Request)
    requires AllConfigured(es, o) && es != []
    ensures AllConfigured(es[..|es| - 1], o)
    ensures TotalOutput(es, o, req) ==
      TotalOutput(es[..|es| - 1], o, req) + |Run(es[|es| - 1], o, req).langs|
    decreases |es|
  {
    if |es| > 1 {
      var init := es[..|es| - 1];
      TotalOutputLast(es[1..], o, req);
      assert es[1..][..|es| - 2] == init[1..];
    }
  }

  /** extractLanguage, as a value: the chain's languages, then the default language. */
  function PreferenceList(es: seq<Extractor>, o: Options, req: Request, defaultLanguage: string): seq<string>
    requires AllConfigured(es, o)
  {
    Chain(es, o, req).langs + [defaultLanguage]
  }

  /** The preference list is never empty, ends with the default language, holds
      one more entry than the extractors contribute in all, and starts with the
      chain's output. */
  lemma PreferenceListShape(es: seq<Extractor>, o: Options, req: Request, defaultLanguage: string)
    requires AllConfigured(es, o)
    ensures var r := PreferenceList(es, o, req, defaultLanguage);
      |r| == TotalOutput(es, o, req) + 1 && r[|r| - 1] == defaultLanguage &&
      r[..|r| - 1] == Chain(es, o, req).langs
  {
    ChainLength(es, o, req);
    var r := PreferenceList(es, o, req, defaultLanguage);
    assert r[..|r| - 1] == Chain(es, o, req).langs;
  }

  /** With the default chain, the cookie's language comes first, then the
      session's, then the header's ranges. */
  lemma DefaultChainOrder(o: Options, req: Request)
    requires CookieOption in o && SessionOption in o
    ensures AllConfigured(DefaultExtractors, o)
    ensures Chain(DefaultExtractors, o, req).langs ==
      CookieLanguages(o, req).langs + SessionLanguages(o, req).langs + HeaderLanguages(req).langs
    ensures Chain(DefaultExtractors, o, req).log ==
      CookieLanguages(o, req).log + SessionLanguages(o, req).log
  {
    var es := DefaultExtractors;
    assert es[..2] == [CookieExtractor, SessionExtractor];
    assert es[..2][..1] == [CookieExtractor];
    assert es[..2][..1][..0] == [];
    var one := Chain([CookieExtractor], o, req);
    assert one == Extracted(CookieLanguages(o, req).langs, CookieLanguages(o, req).log);
    var two := Chain(es[..2], o, req);
    assert two.langs == one.langs + SessionLanguages(o, req).langs;
    assert two.log == one.log + SessionLanguages(o, req).log;
  }
}
