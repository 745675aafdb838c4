// The pieces of Go's standard library that the i18n package relies on:
// strings.Split, strings.Trim with a single-space cutset, filepath.Dir and
// filepath.Base on slash-separated paths, and the byte-wise ordering that
// sort.Strings uses.

module GoStd {

  datatype Option<T> = None | Some(value: T)

  /** Number of occurrences of `c` in `s`. */
  function Count(s: string, c: char): nat
  {
    if s == [] then 0 else (if s[0] == c then 1 else 0) + Count(s[1..], c)
  }

  /** strings.Split(s, string(sep)): the pieces between the occurrences of `sep`.
      The first piece is the part of `s` before the first `sep`. */
  function Split(s: string, sep: char): (r: seq<string>)
    ensures |r| == Count(s, sep) + 1
    decreases |s|
  {
    if s == [] then [""]
    else
      var rest := Split(s[1..], sep);
      if s[0] == sep then [""] + rest
      else [[s[0]] + rest[0]] + rest[1..]
  }

  /** The first piece of a split is the part of `s` before its first `sep`: a
      prefix of `s` without `sep`, followed in `s` by `sep` unless it is all of `s`. */
  lemma {:induction false} SplitFirstPiece(s: string, sep: char)
    ensures var first := Split(s, sep)[0];
      first <= s && sep !in first && (|first| < |s| ==> s[|first|] == sep)
    decreases |s|
  {
    if s != [] && s[0] != sep {
      SplitFirstPiece(s[1..], sep);
    }
  }

  /** No piece of a split holds the separator. */
  lemma {:induction false} SplitPiecesExcludeSeparator(s: string, sep: char, i: nat)
    requires i < |Split(s, sep)|
    ensures sep !in Split(s, sep)[i]
    decreases |s|
  {
    if i == 0 {
      SplitFirstPiece(s, sep);
    } else if s != [] {
      var rest := Split(s[1..], sep);
      if s[0] == sep {
        assert Split(s, sep)[i] == rest[i - 1];
        SplitPiecesExcludeSeparator(s[1..], sep, i - 1);
      } else {
        assert Split(s, sep)[i] == rest[i];
        SplitPiecesExcludeSeparator(s[1..], sep, i);
      }
    }
  }

  /** strings.Join(parts, string(sep)). */
  function Join(parts: seq<string>, sep: char): string
  {
    if |parts| == 0 then ""
    else if |parts| == 1 then parts[0]
    else parts[0] + [sep] + Join(parts[1..], sep)
  }

  /** Joining the pieces back with the separator gives the original string. */
  lemma {:induction false} JoinSplit(s: string, sep: char)
    ensures Join(Split(s, sep), sep) == s
    decreases |s|
  {
    if s != [] {
      var rest := Split(s[1..], sep);
      JoinSplit(s[1..], sep);
      if s[0] == sep {
        assert Split(s, sep) == [""] + rest;
        assert ([""] + rest)[1..] == rest;
      } else {
        var pieces := Split(s, sep);
        assert pieces == [[s[0]] + rest[0]] + rest[1..];
        if |rest| == 1 {
          assert Join(pieces, sep) == [s[0]] + rest[0];
          assert rest[0] == s[1..];
        } else {
          assert pieces[1..] == rest[1..];
          assert Join(rest, sep) == rest[0] + [sep] + Join(rest[1..], sep);
        }
        assert s == [s[0]] + s[1..];
      }
    }
  }

  /** With no separator in `s`, splitting gives `s` alone. */
  lemma {:induction false} SplitWithoutSeparator(s: string, sep: char)
    requires sep !in s
    ensures Split(s, sep) == [s]
    decreases |s|
  {
    if s != [] {
      SplitWithoutSeparator(s[1..], sep);
      assert [s[0]] + s[1..] == s;
    }
  }

  /** Splitting at a first separator gives the part before it, then the pieces after it. */
  lemma {:induction false} SplitAtSeparator(a: string, b: string, sep: char)
    requires sep !in a
    ensures Split(a + [sep] + b, sep) == [a] + Split(b, sep)
    decreases |a|
  {
    if a == [] {
      assert a + [sep] + b == [sep] + b;
      assert ([sep] + b)[1..] == b;
    } else {
      var s := a + [sep] + b;
      assert s[1..] == a[1..] + [sep] + b;
      SplitAtSeparator(a[1..], b, sep);
      assert [a[0]] + a[1..] == a;
    }
  }

  /** strings.TrimLeft(s, " "): drops the leading spaces. */
  function TrimLeftSpaces(s: string): (r: string)
    ensures |r| <= |s|
    decreases |s|
  {
    if s != [] && s[0] == ' ' then TrimLeftSpaces(s[1..]) else s
  }

  /** strings.TrimRight(s, " "): drops the trailing spaces. */
  function TrimRightSpaces(s: string): (r: string)
    ensures |r| <= |s|
    decreases |s|
  {
    if s != [] && s[|s| - 1] == ' ' then TrimRightSpaces(s[..|s| - 1]) else s
  }

  /** TrimLeft leaves a suffix of `s` that does not start with a space. */
  lemma {:induction false} TrimLeftSpacesSpec(s: string)
    ensures var r := TrimLeftSpaces(s);
      r == s[|s| - |r|..] && (r == [] || r[0] != ' ')
    decreases |s|
  {
    if s != [] && s[0] == ' ' {
      TrimLeftSpacesSpec(s[1..]);
    }
  }

  /** TrimRight leaves a prefix of `s` that does not end with a space. */
  lemma {:induction false} TrimRightSpacesSpec(s: string)
    ensures var r := TrimRightSpaces(s);
      r == s[..|r|] && (r == [] || r[|r| - 1] != ' ')
    decreases |s|
  {
    if s != [] && s[|s| - 1] == ' ' {
      TrimRightSpacesSpec(s[..|s| - 1]);
    }
  }

  /** Only spaces are dropped at the front. */
  lemma {:induction false} TrimLeftDropsSpaces(s: string, k: nat)
    requires k < |s| - |TrimLeftSpaces(s)|
    ensures s[k] == ' '
    decreases |s|
  {
    if k > 0 {
      TrimLeftDropsSpaces(s[1..], k - 1);
    }
  }

  /** Only spaces are dropped at the back. */
  lemma {:induction false} TrimRightDropsSpaces(s: string, k: nat)
    requires |TrimRightSpaces(s)| <= k < |s|
    ensures s[k] == ' '
    decreases |s|
  {
    if k < |s| - 1 {
      TrimRightDropsSpaces(s[..|s| - 1], k);
    }
  }

  /** How many spaces strings.Trim(s, " ") removes at the front. */
  function LeadingSpaces(s: string): nat
  {
    |s| - |TrimLeftSpaces(s)|
  }

  /** strings.Trim(s, " "): drops the spaces at both ends. */
  function TrimSpaces(s: string): string
  {
    TrimRightSpaces(TrimLeftSpaces(s))
  }

  /** strings.Trim(s, " ") leaves the infix of `s` once the spaces at both ends
      are removed, with no space left at either end. */
  lemma TrimSpacesSpec(s: string)
    ensures var r := TrimSpaces(s);
      LeadingSpaces(s) + |r| <= |s| &&
      r == s[LeadingSpaces(s)..LeadingSpaces(s) + |r|] &&
      (r == [] || (r[0] != ' ' && r[|r| - 1] != ' '))
  {
    var left := TrimLeftSpaces(s);
    var r := TrimRightSpaces(left);
    TrimLeftSpacesSpec(s);
    TrimRightSpacesSpec(left);
    assert left[..|r|] == s[|s| - |left|..|s| - |left| + |r|];
  }

  /** strings.Trim(s, " ") removes nothing but spaces: every character of `s`
      outside the trimmed infix is a space. */
  lemma TrimSpacesDropsSpaces(s: string, k: nat)
    requires k < |s|
    requires k < LeadingSpaces(s) || LeadingSpaces(s) + |TrimSpaces(s)| <= k
    ensures s[k] == ' '
  {
    var left := TrimLeftSpaces(s);
    var lead := LeadingSpaces(s);
    TrimLeftSpacesSpec(s);
    if k < lead {
      TrimLeftDropsSpaces(s, k);
    } else {
      assert left[k - lead] == s[k];
      TrimRightDropsSpaces(left, k - lead);
    }
  }

  /** Index of the last occurrence of `c` in `s`. */
  function LastIndex(s: string, c: char): (r: Option<nat>)
    ensures r.Some? ==> r.value < |s| && s[r.value] == c
    ensures r.Some? ==> forall k :: r.value < k < |s| ==> s[k] != c
    ensures r.None? ==> c !in s
    decreases |s|
  {
    if s == [] then None
    else if s[|s| - 1] == c then Some(|s| - 1)
    else
      var r := LastIndex(s[..|s| - 1], c);
      assert s == s[..|s| - 1] + [s[|s| - 1]];
      r
  }

  /** filepath.Base for the slash-separated paths fs.WalkDir produces. */
  function Base(path: string): string
  {
    match LastIndex(path, '/')
    case None => if path == "" then "." else path
    case Some(i) => path[i + 1..]
  }

  /** filepath.Dir for the slash-separated paths fs.WalkDir produces. */
  function Dir(path: string): string
  {
    match LastIndex(path, '/')
    case None => "."
    case Some(i) => if i == 0 then "/" else path[..i]
  }

  /** The byte-wise order of Go's string comparison. Characters are compared by
      code point, which orders strings as their UTF-8 encodings are ordered. */
  predicate StrLe(a: string, b: string)
    decreases |a|
  {
    a == [] || (b != [] && (a[0] < b[0] || (a[0] == b[0] && StrLe(a[1..], b[1..]))))
  }

  lemma {:induction false} StrLeTotal(a: string, b: string)
    ensures StrLe(a, b) || StrLe(b, a)
    decreases |a|
  {
    if a != [] && b != [] && a[0] == b[0] {
      StrLeTotal(a[1..], b[1..]);
    }
  }

  lemma {:induction false} StrLeTransitive(a: string, b: string, c: string)
    requires StrLe(a, b) && StrLe(b, c)
    ensures StrLe(a, c)
    decreases |a|
  {
    if a != [] && a[0] == b[0] && b[0] == c[0] {
      StrLeTransitive(a[1..], b[1..], c[1..]);
    }
  }

  predicate NoDuplicates(s: seq<string>)
  {
    forall i, j :: 0 <= i < j < |s| ==> s[i] != s[j]
  }

  /** In a sequence without duplicates every element occurs at most once. */
  lemma {:induction false} NoDuplicatesMultiplicity(s: seq<string>, x: string)
    requires NoDuplicates(s)
    ensures multiset(s)[x] <= 1
    decreases |s|
  {
    if s != [] {
      var init := s[..|s| - 1];
      assert s == init + [s[|s| - 1]];
      assert NoDuplicates(init);
      NoDuplicatesMultiplicity(init, x);
      if x == s[|s| - 1] {
        assert x !in init;
      }
    }
  }

  /** A permutation of a sequence without duplicates has none either. */
  lemma PermutationNoDuplicates(s: seq<string>, t: seq<string>)
    requires multiset(s) == multiset(t) && NoDuplicates(t)
    ensures NoDuplicates(s)
  {
    forall i, j | 0 <= i < j < |s| ensures s[i] != s[j] {
      NoDuplicatesMultiplicity(t, s[i]);
      assert s == s[..i] + [s[i]] + s[i + 1..j] + [s[j]] + s[j + 1..];
      assert multiset(s)[s[i]] >= 1 + multiset([s[j]])[s[i]];
    }
  }
}
