/**
 * The JavaScript string built-ins the library relies on, stated over
 * `seq<char>`: `indexOf`, `split` with a literal separator, `join`, and
 * stripping a set of characters from both ends (what `trim` and the
 * anchored `replace` calls do).
 */
module Strings {

  /** The platform line terminator (`os.EOL`), fixed to a line feed. */
  const EOL: string := "\n"

  /** `p` occurs in `s` starting at index `i`. */
  predicate OccursAt(s: string, p: string, i: int)
  {
    0 <= i && i + |p| <= |s| && s[i..i + |p|] == p
  }

  /** `p` occurs somewhere in `s`. */
  ghost predicate Occurs(s: string, p: string)
  {
    exists i :: OccursAt(s, p, i)
  }

  /** An occurrence in `s[1..]` is an occurrence in `s`, one index later. */
  lemma OccursAtTail(s: string, p: string, i: int)
    requires |s| > 0 && i >= 0
    ensures OccursAt(s[1..], p, i) <==> OccursAt(s, p, i + 1)
  {
    if 0 <= i && i + |p| <= |s| - 1 {
      assert s[1..][i..i + |p|] == s[i + 1..i + 1 + |p|];
    }
  }

  /** An occurrence inside a prefix of `s` is an occurrence in `s`. */
  lemma OccursAtPrefix(s: string, p: string, n: int, i: int)
    requires 0 <= n <= |s|
    ensures OccursAt(s[..n], p, i) ==> OccursAt(s, p, i)
  {
    if OccursAt(s[..n], p, i) {
      assert s[..n][i..i + |p|] == s[i..i + |p|];
    }
  }

  /** An occurrence in `s` stays one in `s + t`. */
  lemma OccursAtExtend(s: string, t: string, p: string, i: int)
    ensures OccursAt(s, p, i) ==> OccursAt(s + t, p, i)
  {
    if OccursAt(s, p, i) {
      assert (s + t)[i..i + |p|] == s[i..i + |p|];
    }
  }

  /**
   * `s.indexOf(p)`: the first index at which `p` occurs in `s`, or -1 when
   * it occurs nowhere.
   */
  function IndexOf(s: string, p: string): (r: int)
    ensures r == -1 || OccursAt(s, p, r)
    ensures r == -1 ==> forall i :: !OccursAt(s, p, i)
    ensures forall i :: 0 <= i < r ==> !OccursAt(s, p, i)
    decreases |s|
  {
    if |s| < |p| then -1
    else if s[..|p|] == p then 0
    else
      var k := IndexOf(s[1..], p);
      assert forall i | i >= 0 :: OccursAt(s[1..], p, i) <==> OccursAt(s, p, i + 1) by {
        forall i | i >= 0 ensures OccursAt(s[1..], p, i) <==> OccursAt(s, p, i + 1) {
          OccursAtTail(s, p, i);
        }
      }
      assert forall i :: OccursAt(s, p, i) ==> i == 0 || OccursAt(s[1..], p, i - 1);
      if k < 0 then -1 else k + 1
  }

  /** A one-character pattern occurs exactly where that character stands. */
  lemma OccursAtChar(s: string, c: char, k: int)
    ensures OccursAt(s, [c], k) <==> 0 <= k < |s| && s[k] == c
  {
    if 0 <= k < |s| {
      assert s[k..k + 1] == [s[k]];
    }
  }

  /** The first occurrence of a single character `c`. */
  lemma {:induction false} IndexOfChar(s: string, c: char, i: int)
    requires 0 <= i <= |s|
    requires i < |s| ==> s[i] == c
    requires c !in s[..i]
    ensures IndexOf(s, [c]) == if i < |s| then i else -1
  {
    forall k ensures OccursAt(s, [c], k) <==> 0 <= k < |s| && s[k] == c {
      OccursAtChar(s, c, k);
    }
    forall k | 0 <= k < i ensures s[k] != c {
      assert s[k] == s[..i][k];
    }
  }

  /** `fs.join(sep)`. */
  function Join(fs: seq<string>, sep: string): string
  {
    if |fs| == 0 then ""
    else if |fs| == 1 then fs[0]
    else fs[0] + sep + Join(fs[1..], sep)
  }

  /**
   * `s.split(sep)` for a non-empty literal separator: the text before,
   * between and after the leftmost non-overlapping occurrences of `sep`.
   * Joining the fields back with `sep` gives `s`, and no field holds `sep`.
   * `FieldsLeftmost` shows that every match is the leftmost one.
   */
  function Fields(s: string, sep: string): (r: seq<string>)
    requires sep != ""
    ensures |r| >= 1
    ensures Join(r, sep) == s
    ensures forall k :: 0 <= k < |r| ==> !Occurs(r[k], sep)
    ensures |r| == 1 <==> IndexOf(s, sep) == -1
    ensures |r| > 1 ==> |r[0]| == IndexOf(s, sep)
    decreases |s|
  {
    var i := IndexOf(s, sep);
    if i < 0 then
      [s]
    else
      var rest := Fields(s[i + |sep|..], sep);
      assert !Occurs(s[..i], sep) by {
        forall j ensures !OccursAt(s[..i], sep, j) {
          OccursAtPrefix(s, sep, i, j);
        }
      }
      assert s == s[..i] + sep + s[i + |sep|..];
      assert ([s[..i]] + rest)[1..] == rest;
      [s[..i]] + rest
  }

  /**
   * Every field of `split` but the last ends at the first occurrence of
   * `sep` in the text that remains from that field on: each match is the
   * leftmost one, even for a separator that overlaps itself.
   */
  lemma {:induction false} FieldsLeftmost(s: string, sep: string)
    requires sep != ""
    ensures forall k :: 0 <= k < |Fields(s, sep)| - 1 ==>
      |Fields(s, sep)[k]| == IndexOf(Join(Fields(s, sep)[k..], sep), sep)
    decreases |s|
  {
    var r := Fields(s, sep);
    var i := IndexOf(s, sep);
    if i >= 0 {
      var t := s[i + |sep|..];
      var rest := Fields(t, sep);
      assert r == [s[..i]] + rest;
      FieldsLeftmost(t, sep);
      assert r[0..] == r;
      forall k | 1 <= k < |r| - 1 ensures |r[k]| == IndexOf(Join(r[k..], sep), sep) {
        assert r[k..] == rest[k - 1..];
      }
    }
  }

  /**
   * The number of leftmost non-overlapping occurrences of `sep` in `s`,
   * counted by a scan that tries every position from left to right and
   * skips past each match.
   */
  function Count(s: string, sep: string): nat
    requires sep != ""
    decreases |s|
  {
    if |s| < |sep| then 0
    else if s[..|sep|] == sep then 1 + Count(s[|sep|..], sep)
    else Count(s[1..], sep)
  }

  /** Positions before the first occurrence do not change the count. */
  lemma {:induction false} CountSkip(s: string, sep: string, i: int)
    requires sep != ""
    requires 0 <= i <= |s|
    requires forall j :: 0 <= j < i ==> !OccursAt(s, sep, j)
    ensures Count(s, sep) == Count(s[i..], sep)
    decreases i
  {
    if i > 0 {
      assert !OccursAt(s, sep, 0);
      if |s| < |sep| {
        CountShort(s[i..], sep);
      } else {
        forall j | 0 <= j < i - 1 ensures !OccursAt(s[1..], sep, j) {
          OccursAtTail(s, sep, j);
        }
        CountSkip(s[1..], sep, i - 1);
        assert s[1..][i - 1..] == s[i..];
      }
    }
  }

  lemma CountShort(s: string, sep: string)
    requires sep != "" && |s| < |sep|
    ensures Count(s, sep) == 0
  {
  }

  /** `split` yields one field more than there are separator occurrences. */
  lemma {:induction false} FieldsCount(s: string, sep: string)
    requires sep != ""
    ensures |Fields(s, sep)| == Count(s, sep) + 1
    decreases |s|
  {
    var i := IndexOf(s, sep);
    if i < 0 {
      CountSkip(s, sep, |s|);
      assert s[|s|..] == "";
    } else {
      CountSkip(s, sep, i);
      var t := s[i..];
      assert t[..|sep|] == sep;
      assert t[|sep|..] == s[i + |sep|..];
      FieldsCount(s[i + |sep|..], sep);
    }
  }

  /** Occurrences of a one-character separator are the occurrences of that character. */
  lemma {:induction false} CountChar(s: string, c: char)
    ensures Count(s, [c]) == multiset(s)[c]
    decreases |s|
  {
    if |s| > 0 {
      CountChar(s[1..], c);
      assert s == [s[0]] + s[1..];
      assert multiset(s) == multiset{s[0]} + multiset(s[1..]);
      assert s[..1] == [s[0]];
    }
  }

  /**
   * For a one-character separator that no field contains, `split` undoes
   * `join`.
   */
  lemma {:induction false} FieldsOfJoin(fs: seq<string>, c: char)
    requires |fs| >= 1
    requires forall k :: 0 <= k < |fs| ==> c !in fs[k]
    ensures Fields(Join(fs, [c]), [c]) == fs
    decreases |fs|
  {
    var s := Join(fs, [c]);
    if |fs| == 1 {
      assert s[..|s|] == fs[0];
      IndexOfChar(s, c, |s|);
    } else {
      var n := |fs[0]|;
      assert s == fs[0] + [c] + Join(fs[1..], [c]);
      assert s[..n] == fs[0];
      IndexOfChar(s, c, n);
      var rest := s[n + 1..];
      assert rest == Join(fs[1..], [c]);
      assert Fields(s, [c]) == [fs[0]] + Fields(rest, [c]);
      FieldsOfJoin(fs[1..], c);
      assert fs == [fs[0]] + fs[1..];
    }
  }

  /** `s` without its longest prefix of characters from `cs`. */
  function DropLeading(s: string, cs: set<char>): (r: string)
    ensures |r| <= |s| && r == s[|s| - |r|..]
    ensures forall i :: 0 <= i < |s| - |r| ==> s[i] in cs
    ensures r == [] || r[0] !in cs
    decreases |s|
  {
    if |s| > 0 && s[0] in cs then DropLeading(s[1..], cs) else s
  }

  /** `s` without its longest suffix of characters from `cs`. */
  function DropTrailing(s: string, cs: set<char>): (r: string)
    ensures |r| <= |s| && r == s[..|r|]
    ensures forall i :: |r| <= i < |s| ==> s[i] in cs
    ensures r == [] || r[|r| - 1] !in cs
    decreases |s|
  {
    if |s| > 0 && s[|s| - 1] in cs then DropTrailing(s[..|s| - 1], cs) else s
  }

  /** `s` without its leading and trailing runs of characters from `cs`. */
  function Strip(s: string, cs: set<char>): (r: string)
    ensures r == [] || (r[0] !in cs && r[|r| - 1] !in cs)
  {
    DropTrailing(DropLeading(s, cs), cs)
  }

  /**
   * `Strip` keeps the contiguous slice `s[i..j]` of `s` and removes exactly
   * the maximal runs of `cs` at both ends; it yields "" exactly when `s` is
   * all `cs`.
   */
  lemma StripSlice(s: string, cs: set<char>) returns (i: int, j: int)
    ensures 0 <= i <= j <= |s| && Strip(s, cs) == s[i..j]
    ensures forall k :: 0 <= k < i ==> s[k] in cs
    ensures forall k :: j <= k < |s| ==> s[k] in cs
    ensures Strip(s, cs) == [] <==> forall k :: 0 <= k < |s| ==> s[k] in cs
  {
    var a := DropLeading(s, cs);
    var r := DropTrailing(a, cs);
    i := |s| - |a|;
    j := i + |r|;
    assert a == s[i..] && r == a[..|r|];
    assert r == s[i..j];
    forall k | j <= k < |s| ensures s[k] in cs {
      assert s[k] == a[k - i];
    }
    if r == [] {
      forall k | 0 <= k < |s| ensures s[k] in cs {
      }
    }
  }

  /** Stripping twice strips no more than stripping once. */
  lemma StripIdempotent(s: string, cs: set<char>)
    ensures Strip(Strip(s, cs), cs) == Strip(s, cs)
  {
    var r := Strip(s, cs);
    assert DropLeading(r, cs) == r;
    assert DropTrailing(r, cs) == r;
  }
}
