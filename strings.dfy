/** The pieces of Rust's `str` API the site generator relies on: `split` on a
    character, `join` with a separator, `replace` of one character by another,
    `ends_with`, and the way the operating system reads repeated `/`. */
module Strings {

  /** Pieces joined by `c`, Rust's `parts.join(c)`. */
  function Join(parts: seq<string>, c: char): string
  {
    if |parts| == 0 then ""
    else if |parts| == 1 then parts[0]
    else parts[0] + [c] + Join(parts[1..], c)
  }

  /** Rust's `s.split(c)`: the maximal pieces of `s` between occurrences of
      `c`; there is always at least one piece, no piece holds `c`, and the
      pieces joined with `c` give back `s`. */
  function Split(s: string, c: char): (parts: seq<string>)
    ensures |parts| >= 1
    ensures forall i :: 0 <= i < |parts| ==> c !in parts[i]
    ensures Join(parts, c) == s
  {
    if s == [] then [""]
    else
      var rest := Split(s[1..], c);
      assert s == [s[0]] + s[1..];
      if s[0] == c then [""] + rest
      else [[s[0]] + rest[0]] + rest[1..]
  }

  /** The last element of a non-empty sequence (Rust's `Iterator::last`). */
  function Last<T>(xs: seq<T>): T
    requires |xs| > 0
  {
    xs[|xs| - 1]
  }

  /** Rust's `s.replace(a, b)` for single characters. */
  function Replace(s: string, a: char, b: char): (r: string)
    ensures |r| == |s|
    ensures forall i :: 0 <= i < |s| ==> r[i] == (if s[i] == a then b else s[i])
  {
    if s == [] then [] else [if s[0] == a then b else s[0]] + Replace(s[1..], a, b)
  }

  /** Rust's `s.ends_with(suffix)`. (`starts_with` is Dafny's prefix `<=`.) */
  predicate EndsWith(s: string, suffix: string)
  {
    |suffix| <= |s| && s[|s| - |suffix|..] == suffix
  }

  /** The path the operating system actually opens: a run of `/` reads as one. */
  function CollapseSlashes(s: string): (r: string)
    ensures |r| <= |s|
  {
    if |s| < 2 then s
    else if s[0] == '/' && s[1] == '/' then CollapseSlashes(s[1..])
    else [s[0]] + CollapseSlashes(s[1..])
  }

  lemma {:induction false} ReplaceAppend(x: string, y: string, a: char, b: char)
    ensures Replace(x + y, a, b) == Replace(x, a, b) + Replace(y, a, b)
  {
    var l, r := Replace(x + y, a, b), Replace(x, a, b) + Replace(y, a, b);
    assert |l| == |r|;
    forall i | 0 <= i < |l| ensures l[i] == r[i] {
      if i < |x| { assert (x + y)[i] == x[i]; } else { assert (x + y)[i] == y[i - |x|]; }
    }
  }

  lemma ReplaceAbsent(s: string, a: char, b: char)
    requires a !in s
    ensures Replace(s, a, b) == s
  {
    var r := Replace(s, a, b);
    assert forall i :: 0 <= i < |s| ==> r[i] == s[i];
  }

  /** Splitting at one occurrence of the separator splits the two sides apart. */
  lemma {:induction false} SplitAround(x: string, y: string, c: char)
    ensures Split(x + [c] + y, c) == Split(x, c) + Split(y, c)
  {
    if x == [] {
      assert x + [c] + y == [c] + y;
      assert ([c] + y)[1..] == y;
    } else {
      assert (x + [c] + y)[1..] == x[1..] + [c] + y;
      SplitAround(x[1..], y, c);
    }
  }

  /** The first `k` pieces, joined and followed by the separator, are a prefix
      of the whole joined string when more pieces follow. */
  lemma {:induction false} JoinPrefix(parts: seq<string>, k: nat, c: char)
    requires 1 <= k < |parts|
    ensures Join(parts[..k], c) + [c] <= Join(parts, c)
  {
    if k == 1 {
      assert parts[..1] == [parts[0]];
    } else {
      var tail := parts[1..];
      JoinPrefix(tail, k - 1, c);
      assert parts[..k][1..] == tail[..k - 1];
      assert Join(parts[..k], c) == parts[0] + [c] + Join(tail[..k - 1], c);
      assert Join(parts, c) == parts[0] + [c] + Join(tail, c);
      var p := Join(tail[..k - 1], c) + [c];
      assert parts[0] + [c] + p <= parts[0] + [c] + Join(tail, c);
      assert Join(parts[..k], c) + [c] == parts[0] + [c] + p;
    }
  }

  lemma {:induction false} CollapseSlashesAppend(x: string, y: string)
    requires |x| > 0 && x[|x| - 1] != '/'
    ensures CollapseSlashes(x + y) == CollapseSlashes(x) + CollapseSlashes(y)
    decreases |x|
  {
    if |x| == 1 {
      if |y| == 0 {
        assert x + y == x;
      } else {
        assert (x + y)[1..] == y;
      }
    } else {
      assert (x + y)[1..] == x[1..] + y;
      CollapseSlashesAppend(x[1..], y);
    }
  }

  /** A string without the separator is its own single piece. */
  lemma {:induction false} SplitWithout(s: string, c: char)
    requires c !in s
    ensures Split(s, c) == [s]
  {
    if s != [] {
      SplitWithout(s[1..], c);
    }
  }

  /** No piece of a split holds a character the string does not. */
  lemma {:induction false} SplitKeepsAbsent(s: string, c: char, d: char)
    requires d !in s
    ensures forall i :: 0 <= i < |Split(s, c)| ==> d !in Split(s, c)[i]
  {
    if s != [] {
      SplitKeepsAbsent(s[1..], c, d);
    }
  }

  /** The first piece of a split is a prefix of the string, ending at the
      string's first separator or at its end. */
  lemma SplitFirst(s: string, c: char)
    ensures Split(s, c)[0] <= s
    ensures |Split(s, c)[0]| == |s| || s[|Split(s, c)[0]|] == c
  {
    var parts := Split(s, c);
    if |parts| > 1 {
      assert s == parts[0] + [c] + Join(parts[1..], c);
    }
  }

  /** Joining one more piece adds the separator and the piece. */
  lemma JoinSnoc(parts: seq<string>, p: string, c: char)
    requires |parts| > 0
    ensures Join(parts + [p], c) == Join(parts, c) + [c] + p
  {
    if |parts| == 1 {
      assert (parts + [p])[1..] == [p];
    } else {
      assert (parts + [p])[1..] == parts[1..] + [p];
      JoinSnoc(parts[1..], p, c);
    }
  }

  /** Splitting undoes joining, when no piece holds the separator. */
  lemma {:induction false} SplitJoin(parts: seq<string>, c: char)
    requires |parts| >= 1
    requires forall i :: 0 <= i < |parts| ==> c !in parts[i]
    ensures Split(Join(parts, c), c) == parts
  {
    if |parts| == 1 {
      SplitWithout(parts[0], c);
    } else {
      SplitJoin(parts[1..], c);
      SplitWithout(parts[0], c);
      SplitAround(parts[0], Join(parts[1..], c), c);
      assert parts == [parts[0]] + parts[1..];
    }
  }

  /** No two `/` in a row. */
  predicate NoDoubleSlash(s: string)
  {
    forall i :: 0 <= i < |s| - 1 ==> !(s[i] == '/' && s[i + 1] == '/')
  }

  /** A path without a repeated `/` is read as it is written. */
  lemma {:induction false} CollapseSlashesPlain(s: string)
    requires NoDoubleSlash(s)
    ensures CollapseSlashes(s) == s
    decreases |s|
  {
    if |s| >= 2 {
      CollapseSlashesPlain(s[1..]);
    }
  }

  /** Collapsing keeps the last character of a path that does not end in `/`. */
  lemma {:induction false} CollapseSlashesLast(s: string)
    requires |s| > 0 && s[|s| - 1] != '/'
    ensures var r := CollapseSlashes(s); |r| > 0 && r[|r| - 1] == s[|s| - 1]
    decreases |s|
  {
    if |s| >= 2 {
      CollapseSlashesLast(s[1..]);
    }
  }

  /** One `/` more in a run of them makes no difference. */
  lemma {:induction false} CollapseSlashesDup(a: string, b: string)
    ensures CollapseSlashes(a + "//" + b) == CollapseSlashes(a + "/" + b)
    decreases |a|
  {
    if a == [] {
      assert (a + "//" + b)[1..] == a + "/" + b;
    } else {
      assert (a + "//" + b)[1..] == a[1..] + "//" + b;
      assert (a + "/" + b)[1..] == a[1..] + "/" + b;
      CollapseSlashesDup(a[1..], b);
    }
  }

  lemma NoDoubleSlashAppend(x: string, y: string)
    requires NoDoubleSlash(x) && NoDoubleSlash(y)
    requires x == [] || y == [] || x[|x| - 1] != '/' || y[0] != '/'
    ensures NoDoubleSlash(x + y)
  {
    var s := x + y;
    forall i | 0 <= i < |s| - 1 ensures !(s[i] == '/' && s[i + 1] == '/') {
      if i + 1 < |x| {
        assert s[i] == x[i] && s[i + 1] == x[i + 1];
      } else if i >= |x| {
        assert s[i] == y[i - |x|] && s[i + 1] == y[i + 1 - |x|];
      }
    }
  }
}
