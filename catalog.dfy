// The message catalog as the Translator sees it: the file tree fs.WalkDir
// visits, the go-i18n bundle reduced to its registrations and language tags,
// what Load does to them (i18n/i18n.go, lines 45-81) and what the
// modification-time scan of needsReload decides (lines 177-207).

module Catalog {
  import opened GoStd
  import opened Host

  /** The zero time.Time: a Translator that never finished a load. */
  const ZeroTime := 0

  /** The mode string under which catalogs are reloaded. */
  const Development := "development"

  /** What fs.ReadFile and Bundle.ParseMessageFileBytes make of one file: the
      language tag its messages were registered under, or the step that failed. */
  datatype FileOutcome = Unreadable | Unparsable | Messages(tag: string)

  /** One entry of the walk, in walk order. `walkFailed` is an error that
      fs.WalkDir hands to the callback for this path; `modTime` is what d.Info()
      reports (None when it fails), as an instant on an integer clock; `file` is
      what reading and parsing the entry gives (unused for directories). */
  datatype Entry = Entry(
    path: string,
    isDir: bool,
    walkFailed: bool,
    modTime: Option<int>,
    file: FileOutcome)

  /** Where the messages of a registration came from: a file, under its
      registry key, or AddTranslation with the given message ids. */
  datatype Origin = File(key: string) | Direct(messageIDs: seq<string>)

  datatype Registration = Registration(origin: Origin, tag: string)

  /** The go-i18n bundle, reduced to the tag it was created with and the
      registrations made into it, in order. Message contents are opaque. */
  datatype Bundle = Bundle(defaultTag: string, registrations: seq<Registration>)

  /** i18n.NewBundle: nothing registered yet. */
  function NewBundle(defaultTag: string): (b: Bundle)
    ensures b.defaultTag == defaultTag && b.registrations == []
  {
    Bundle(defaultTag, [])
  }

  /** Registering messages into the live bundle. */
  function Register(b: Bundle, r: Registration): (b': Bundle)
    ensures b'.defaultTag == b.defaultTag
    ensures b'.registrations == b.registrations + [r]
  {
    Bundle(b.defaultTag, b.registrations + [r])
  }

  // ---------------------------------------------------------------------------
  // Bundle.LanguageTags
  // ---------------------------------------------------------------------------

  /** The elements of `s`, each kept at its first occurrence. */
  function Distinct(s: seq<string>): (r: seq<string>)
    ensures NoDuplicates(r)
    ensures forall x :: x in r <==> x in s
    decreases |s|
  {
    if s == [] then []
    else
      var init := s[..|s| - 1];
      var d := Distinct(init);
      assert s == init + [s[|s| - 1]];
      if s[|s| - 1] in d then d else d + [s[|s| - 1]]
  }

  /** The tags of the registrations, in order. */
  function RegisteredTags(regs: seq<Registration>): (r: seq<string>)
    ensures |r| == |regs|
    ensures forall i :: 0 <= i < |regs| ==> r[i] == regs[i].tag
  {
    seq(|regs|, i requires 0 <= i < |regs| => regs[i].tag)
  }

  /** Bundle.LanguageTags: the bundle's tag first, then every tag registered
      since, each once, in the order it was first added. */
  function LanguageTags(b: Bundle): seq<string>
  {
    Distinct([b.defaultTag] + RegisteredTags(b.registrations))
  }

  /** The bundle's tags hold no duplicates, and a tag is among them exactly when
      it is the bundle's own tag or some registration was made under it. */
  lemma LanguageTagsSpec(b: Bundle, t: string)
    ensures NoDuplicates(LanguageTags(b))
    ensures t in LanguageTags(b) <==>
      t == b.defaultTag || exists i :: 0 <= i < |b.registrations| && b.registrations[i].tag == t
  {
    var all := [b.defaultTag] + RegisteredTags(b.registrations);
    if t in all && t != b.defaultTag {
      var j :| 0 <= j < |all| && all[j] == t;
      assert b.registrations[j - 1].tag == t;
    }
    if exists i :: 0 <= i < |b.registrations| && b.registrations[i].tag == t {
      var i :| 0 <= i < |b.registrations| && b.registrations[i].tag == t;
      assert all[i + 1] == t;
    }
  }

  /** A registration adds its tag to the bundle's tags and removes none. */
  lemma {:induction false} RegisterTags(b: Bundle, r: Registration, t: string)
    ensures t in LanguageTags(Register(b, r)) <==> t in LanguageTags(b) || t == r.tag
  {
    var b' := Register(b, r);
    LanguageTagsSpec(b, t);
    LanguageTagsSpec(b', t);
    if exists i :: 0 <= i < |b.registrations| && b.registrations[i].tag == t {
      var i :| 0 <= i < |b.registrations| && b.registrations[i].tag == t;
      assert b'.registrations[i].tag == t;
    }
    if t != r.tag && exists i :: 0 <= i < |b'.registrations| && b'.registrations[i].tag == t {
      var i :| 0 <= i < |b'.registrations| && b'.registrations[i].tag == t;
      assert i < |b.registrations| && b.registrations[i].tag == t;
    }
    if t == r.tag {
      assert b'.registrations[|b.registrations|].tag == t;
    }
  }

  // ---------------------------------------------------------------------------
  // Load
  // ---------------------------------------------------------------------------

  /** The registry key a file is parsed under: its directory, "buff", then its
      base name, so that the key is never a bare language code. */
  function RegistryKey(path: string): string
  {
    Dir(path) + "buff" + Base(path)
  }

  /** For a file at the top of the tree, the key is ".buff" before its name. */
  lemma RegistryKeyTopLevel(path: string)
    requires path != "" && '/' !in path
    ensures RegistryKey(path) == ".buff" + path
  {
  }

  /** For a nested file, the key is its path with the last '/' replaced by "buff". */
  lemma RegistryKeyNested(path: string, i: nat)
    requires 0 < i < |path| && path[i] == '/'
    requires forall k :: i < k < |path| ==> path[k] != '/'
    ensures RegistryKey(path) == path[..i] + "buff" + path[i + 1..]
  {
    var last := LastIndex(path, '/');
    assert last.Some?;
    assert last.value == i;
  }

  /** Why Load stops: the walk reported an error for a path, a file could not
      be read (named by its path), or could not be parsed (named by its base name). */
  datatype LoadError = WalkFailed(path: string) | ReadFailed(path: string) | ParseFailed(name: string)

  /** Whether the Load callback accepts the entry and lets the walk go on. */
  predicate Loads(e: Entry)
  {
    !e.walkFailed && (e.isDir || e.file.Messages?)
  }

  /** The error the Load callback returns for an entry it does not accept, in
      the order it checks: walk error, then read, then parse. */
  function LoadErrorOf(e: Entry): (err: LoadError)
    requires !Loads(e)
    ensures err.WalkFailed? <==> e.walkFailed
    ensures err.ReadFailed? <==> !e.walkFailed && e.file.Unreadable?
    ensures err.ParseFailed? <==> !e.walkFailed && e.file.Unparsable?
    ensures err.ParseFailed? ==> err.name == Base(e.path)
    ensures !err.ParseFailed? ==> err.path == e.path
  {
    if e.walkFailed then WalkFailed(e.path)
    else if e.file.Unreadable? then ReadFailed(e.path)
    else ParseFailed(Base(e.path))
  }

  /** What one step of Load leaves: the live bundle and, when the walk stops, why. */
  datatype Visited = Visited(bundle: Bundle, err: Option<LoadError>)

  /** The Load callback on one entry: directories are skipped, a file is parsed
      into the live bundle under its registry key. */
  function LoadVisit(b: Bundle, e: Entry): Visited
  {
    if !Loads(e) then Visited(b, Some(LoadErrorOf(e)))
    else if e.isDir then Visited(b, None)
    else Visited(Register(b, Registration(File(RegistryKey(e.path)), e.file.tag)), None)
  }

  /** fs.WalkDir with the Load callback: entry by entry until the first error.
      Files parsed before the error stay in the bundle. */
  function LoadWalk(b: Bundle, tree: seq<Entry>): Visited
    decreases |tree|
  {
    if tree == [] then Visited(b, None)
    else
      var v := LoadVisit(b, tree[0]);
      if v.err.Some? then v else LoadWalk(v.bundle, tree[1..])
  }

  /** The index of the first entry Load does not accept (|tree| when there is none). */
  function FirstLoadFailure(tree: seq<Entry>): (k: nat)
    ensures k <= |tree|
    ensures forall i :: 0 <= i < k ==> Loads(tree[i])
    ensures k < |tree| ==> !Loads(tree[k])
    decreases |tree|
  {
    if tree == [] || !Loads(tree[0]) then 0 else 1 + FirstLoadFailure(tree[1..])
  }

  /** The registration one accepted entry makes: none for a directory. */
  function EntryRegistrations(e: Entry): seq<Registration>
    requires Loads(e)
  {
    if e.isDir then [] else [Registration(File(RegistryKey(e.path)), e.file.tag)]
  }

  /** The registrations the files of `tree` make, in walk order: one per
      non-directory entry, keyed by RegistryKey. */
  function FileRegistrations(tree: seq<Entry>): seq<Registration>
    requires forall i :: 0 <= i < |tree| ==> Loads(tree[i])
    decreases |tree|
  {
    if tree == [] then [] else EntryRegistrations(tree[0]) + FileRegistrations(tree[1..])
  }

  /** Registrations of two accepted runs of entries, walked one after the other. */
  lemma {:induction false} FileRegistrationsAppend(a: seq<Entry>, b: seq<Entry>)
    requires forall i :: 0 <= i < |a| ==> Loads(a[i])
    requires forall i :: 0 <= i < |b| ==> Loads(b[i])
    ensures FileRegistrations(a + b) == FileRegistrations(a) + FileRegistrations(b)
    decreases |a|
  {
    if a == [] {
      assert a + b == b;
    } else {
      assert (a + b)[1..] == a[1..] + b;
      FileRegistrationsAppend(a[1..], b);
    }
  }

  /** An accepted directory in front of accepted entries registers nothing. */
  lemma FileRegistrationsSkipLeadingDirectory(d: Entry, b: seq<Entry>)
    requires forall i :: 0 <= i < |b| ==> Loads(b[i])
    requires Loads(d) && d.isDir
    ensures forall i :: 0 <= i < |[d] + b| ==> Loads(([d] + b)[i])
    ensures FileRegistrations([d] + b) == FileRegistrations(b)
  {
    var db := [d] + b;
    forall i | 0 <= i < |db| ensures Loads(db[i]) {
      if i > 0 { assert db[i] == b[i - 1]; }
    }
    assert db[1..] == b;
    assert FileRegistrations(db) == EntryRegistrations(d) + FileRegistrations(b);
  }

  /** Load skips directories: an accepted directory anywhere in the walk makes
      no difference to what is registered. */
  lemma FileRegistrationsSkipDirectory(a: seq<Entry>, d: Entry, b: seq<Entry>)
    requires forall i :: 0 <= i < |a| ==> Loads(a[i])
    requires forall i :: 0 <= i < |b| ==> Loads(b[i])
    requires Loads(d) && d.isDir
    ensures FileRegistrations(a + [d] + b) == FileRegistrations(a + b)
  {
    FileRegistrationsSkipLeadingDirectory(d, b);
    FileRegistrationsAppend(a, [d] + b);
    FileRegistrationsAppend(a, b);
    assert a + [d] + b == a + ([d] + b);
  }

  /** What Load does, stated without the walk: every entry before the first
      failing one is accepted and each file among them is registered, in order;
      the load fails exactly when some entry fails, and the error names the
      first failing entry. The registrations made before it stay. */
  lemma {:induction false} LoadWalkSpec(b: Bundle, tree: seq<Entry>)
    ensures LoadWalk(b, tree).bundle ==
      Bundle(b.defaultTag, b.registrations + FileRegistrations(tree[..FirstLoadFailure(tree)]))
    ensures LoadWalk(b, tree).err ==
      if FirstLoadFailure(tree) == |tree| then None else Some(LoadErrorOf(tree[FirstLoadFailure(tree)]))
    decreases |tree|
  {
    var k := FirstLoadFailure(tree);
    if tree == [] || !Loads(tree[0]) {
      assert k == 0 && tree[..0] == [];
    } else {
      var v := LoadVisit(b, tree[0]);
      assert v.bundle == Bundle(b.defaultTag, b.registrations + EntryRegistrations(tree[0]));
      LoadWalkSpec(v.bundle, tree[1..]);
      FileRegistrationsPrefix(tree, k);
    }
  }

  /** Peeling the first entry off an accepted prefix. */
  lemma FileRegistrationsPrefix(tree: seq<Entry>, k: nat)
    requires 0 < k <= |tree| && k == FirstLoadFailure(tree)
    ensures FirstLoadFailure(tree[1..]) == k - 1
    ensures FileRegistrations(tree[..k]) == EntryRegistrations(tree[0]) + FileRegistrations(tree[1..][..k - 1])
  {
    var prefix := tree[..k];
    assert prefix[0] == tree[0] && prefix[1..] == tree[1..][..k - 1];
  }

  // ---------------------------------------------------------------------------
  // The modification-time scan of needsReload
  // ---------------------------------------------------------------------------

  /** Whether the needsReload callback stops the walk at this entry: a walk
      error, or a file whose d.Info() fails. */
  predicate ScanStops(e: Entry)
  {
    e.walkFailed || (!e.isDir && e.modTime.None?)
  }

  /** A file whose modification time is strictly after the load time. */
  predicate ChangedSince(e: Entry, loadingTime: int)
  {
    !e.isDir && e.modTime.Some? && e.modTime.value > loadingTime
  }

  /** What the scan found and the log lines it wrote on the way. */
  datatype Scan = Scan(changed: bool, log: seq<LogLine>)

  /** fs.WalkDir with the needsReload callback: every changed file is logged by
      name and flips the result; a walk error stops the walk, is logged, and
      keeps the result found so far. */
  function ScanWalk(loadingTime: int, tree: seq<Entry>): Scan
    decreases |tree|
  {
    if tree == [] then Scan(false, [])
    else
      var e := tree[0];
      if ScanStops(e) then Scan(false, [LogError(e.path)])
      else
        var rest := ScanWalk(loadingTime, tree[1..]);
        if ChangedSince(e, loadingTime) then Scan(true, [LogInfo(Base(e.path))] + rest.log)
        else rest
  }

  /** needsReload: only in development mode; always before the first load;
      otherwise whatever the scan finds. */
  function ReloadCheck(env: string, loadingTime: int, tree: seq<Entry>): Scan
  {
    if env != Development then Scan(false, [])
    else if loadingTime == ZeroTime then Scan(true, [])
    else ScanWalk(loadingTime, tree)
  }

  /** The index of the first entry where the scan stops (|tree| when there is none). */
  function FirstScanStop(tree: seq<Entry>): (k: nat)
    ensures k <= |tree|
    ensures forall i :: 0 <= i < k ==> !ScanStops(tree[i])
    ensures k < |tree| ==> ScanStops(tree[k])
    decreases |tree|
  {
    if tree == [] || ScanStops(tree[0]) then 0 else 1 + FirstScanStop(tree[1..])
  }

  /** The scan reports a change exactly when some file visited before the first
      walk error is strictly newer than the load time. */
  lemma {:induction false} ScanWalkSpec(loadingTime: int, tree: seq<Entry>)
    ensures ScanWalk(loadingTime, tree).changed <==>
      exists i :: 0 <= i < FirstScanStop(tree) && ChangedSince(tree[i], loadingTime)
    decreases |tree|
  {
    if tree != [] && !ScanStops(tree[0]) {
      ScanWalkSpec(loadingTime, tree[1..]);
      var k := FirstScanStop(tree);
      if exists i :: 0 <= i < k - 1 && ChangedSince(tree[1..][i], loadingTime) {
        var i :| 0 <= i < k - 1 && ChangedSince(tree[1..][i], loadingTime);
        assert ChangedSince(tree[i + 1], loadingTime);
      }
      if exists i :: 0 <= i < k && ChangedSince(tree[i], loadingTime) {
        var i :| 0 <= i < k && ChangedSince(tree[i], loadingTime);
        if i > 0 {
          assert ChangedSince(tree[1..][i - 1], loadingTime);
        }
      }
    }
  }

  /** The reload rules: never outside development mode; always before the first
      load; otherwise exactly when a file visited before the first walk error
      has a modification time strictly after the load time. */
  lemma ReloadRules(env: string, loadingTime: int, tree: seq<Entry>)
    ensures env != Development ==> !ReloadCheck(env, loadingTime, tree).changed
    ensures env == Development && loadingTime == ZeroTime ==> ReloadCheck(env, loadingTime, tree).changed
    ensures env == Development && loadingTime != ZeroTime ==>
      (ReloadCheck(env, loadingTime, tree).changed <==>
        exists i :: 0 <= i < FirstScanStop(tree) && ChangedSince(tree[i], loadingTime))
  {
    ScanWalkSpec(loadingTime, tree);
  }

  /** A file whose modification time equals the load time is not a change. */
  lemma SameInstantIsNoChange(loadingTime: int, e: Entry)
    requires !e.isDir && !e.walkFailed && e.modTime == Some(loadingTime)
    ensures ScanWalk(loadingTime, [e]) == Scan(false, [])
  {
  }
}
