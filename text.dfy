/**
 * The string operations of Python the README generator relies on:
 * str.replace, str.split with an explicit separator, str.join, repetition
 * with *, and the concatenation of what successive writes append.
 */
module Text {

  /**
   * str.replace(pat, rep): scans left to right and replaces every
   * non-overlapping occurrence of pat; the text a replacement produces is
   * not scanned again.
   */
  function ReplaceAll(s: string, pat: string, rep: string): string
    requires |pat| > 0
    decreases |s|
  {
    if |s| < |pat| then s
    else if s[..|pat|] == pat then rep + ReplaceAll(s[|pat|..], pat, rep)
    else [s[0]] + ReplaceAll(s[1..], pat, rep)
  }

  /** str.split(sep): the pieces between the non-overlapping occurrences of sep; never empty. */
  function Split(s: string, sep: string): (parts: seq<string>)
    requires |sep| > 0
    ensures |parts| >= 1
    decreases |s|
  {
    if |s| < |sep| then [s]
    else if s[..|sep|] == sep then [""] + Split(s[|sep|..], sep)
    else
      var rest := Split(s[1..], sep);
      [[s[0]] + rest[0]] + rest[1..]
  }

  /** sep.join(parts). */
  function Join(parts: seq<string>, sep: string): string
  {
    if |parts| == 0 then ""
    else if |parts| == 1 then parts[0]
    else parts[0] + sep + Join(parts[1..], sep)
  }

  /** s * n. */
  function Repeat(s: string, n: nat): (r: string)
    ensures |r| == n * |s|
  {
    if n == 0 then "" else Repeat(s, n - 1) + s
  }

  /** What a sequence of writes appends, in order. */
  function Concat(parts: seq<string>): string
  {
    if parts == [] then "" else Concat(parts[..|parts| - 1]) + parts[|parts| - 1]
  }

  lemma ConcatSnoc(parts: seq<string>, x: string)
    ensures Concat(parts + [x]) == Concat(parts) + x
  {
    assert (parts + [x])[..|parts|] == parts;
  }

  /** Joining one more part appends the separator and the part. */
  lemma {:induction false} JoinSnoc(parts: seq<string>, x: string, sep: string)
    requires |parts| >= 1
    ensures Join(parts + [x], sep) == Join(parts, sep) + sep + x
  {
    if |parts| > 1 {
      assert (parts + [x])[1..] == parts[1..] + [x];
      JoinSnoc(parts[1..], x, sep);
    }
  }

  /** Extending the first part at its front extends the joined text at its front. */
  lemma JoinExtendHead(c: char, parts: seq<string>, sep: string)
    requires |parts| >= 1
    ensures Join([[c] + parts[0]] + parts[1..], sep) == [c] + Join(parts, sep)
  {
    var q := [[c] + parts[0]] + parts[1..];
    assert q[1..] == parts[1..];
  }

  /** Splitting on a separator and joining the pieces back with it gives the original text. */
  lemma {:induction false} JoinSplit(s: string, sep: string)
    requires |sep| > 0
    ensures Join(Split(s, sep), sep) == s
    decreases |s|
  {
    if |s| < |sep| {
    } else if s[..|sep|] == sep {
      var rest := Split(s[|sep|..], sep);
      assert Split(s, sep) == [""] + rest;
      assert ([""] + rest)[1..] == rest;
      JoinSplit(s[|sep|..], sep);
      assert Join([""] + rest, sep) == "" + sep + s[|sep|..];
      assert s == sep + s[|sep|..];
    } else {
      var rest := Split(s[1..], sep);
      assert Split(s, sep) == [[s[0]] + rest[0]] + rest[1..];
      JoinSplit(s[1..], sep);
      JoinExtendHead(s[0], rest, sep);
      assert s == [s[0]] + s[1..];
    }
  }

  /** str.replace is splitting on the pattern and joining the pieces with the replacement. */
  lemma {:induction false} ReplaceIsSplitJoin(s: string, pat: string, rep: string)
    requires |pat| > 0
    ensures ReplaceAll(s, pat, rep) == Join(Split(s, pat), rep)
    decreases |s|
  {
    if |s| < |pat| {
    } else if s[..|pat|] == pat {
      ReplaceIsSplitJoin(s[|pat|..], pat, rep);
    } else {
      ReplaceIsSplitJoin(s[1..], pat, rep);
      JoinExtendHead(s[0], Split(s[1..], pat), rep);
    }
  }

  /** Text that lacks the first character of the pattern is left as it is. */
  lemma {:induction false} ReplaceAbsent(s: string, pat: string, rep: string)
    requires |pat| > 0 && pat[0] !in s
    ensures ReplaceAll(s, pat, rep) == s
    decreases |s|
  {
    if |s| >= |pat| {
      assert s[..|pat|][0] == s[0];
      ReplaceAbsent(s[1..], pat, rep);
      assert s == [s[0]] + s[1..];
    }
  }

  /** Deleting every occurrence of a pattern never lengthens the text. */
  lemma {:induction false} DeleteShortens(s: string, pat: string)
    requires |pat| > 0
    ensures |ReplaceAll(s, pat, "")| <= |s|
    decreases |s|
  {
    if |s| >= |pat| {
      if s[..|pat|] == pat {
        DeleteShortens(s[|pat|..], pat);
      } else {
        DeleteShortens(s[1..], pat);
      }
    }
  }

  /** Split on a one-character separator yields pieces free of that character. */
  lemma {:induction false} SplitPiecesFree(s: string, c: char)
    ensures forall k :: 0 <= k < |Split(s, [c])| ==> c !in Split(s, [c])[k]
    decreases |s|
  {
    if |s| >= 1 {
      SplitPiecesFree(s[1..], c);
      if s[..1] != [c] {
        assert s[0] != c;
      }
    }
  }

  /** Pieces of a split hold only characters of the split text. */
  lemma {:induction false} SplitPiecesWithin(s: string, sep: string)
    requires |sep| > 0
    ensures forall k, ch :: 0 <= k < |Split(s, sep)| && ch in Split(s, sep)[k] ==> ch in s
    decreases |s|
  {
    if |s| >= |sep| {
      var parts := Split(s, sep);
      if s[..|sep|] == sep {
        var rest := s[|sep|..];
        SplitPiecesWithin(rest, sep);
        forall k, ch | 0 <= k < |parts| && ch in parts[k]
          ensures ch in s
        {
          assert parts[k] == Split(rest, sep)[k - 1];
          assert ch in rest;
          var i :| 0 <= i < |rest| && rest[i] == ch;
          assert s[|sep| + i] == ch;
        }
      } else {
        var rest := s[1..];
        SplitPiecesWithin(rest, sep);
        forall k, ch | 0 <= k < |parts| && ch in parts[k]
          ensures ch in s
        {
          if ch != s[0] {
            if k == 0 {
              assert parts[0] == [s[0]] + Split(rest, sep)[0];
              assert ch in Split(rest, sep)[0];
            } else {
              assert parts[k] == Split(rest, sep)[k];
            }
            assert ch in rest;
            var i :| 0 <= i < |rest| && rest[i] == ch;
            assert s[1 + i] == ch;
          }
        }
      }
    }
  }

  /** Every part followed by the separator: what a loop writing "part, then separator" appends. */
  function Terminated(parts: seq<string>, sep: string): string
  {
    if parts == [] then "" else Terminated(parts[..|parts| - 1], sep) + parts[|parts| - 1] + sep
  }

  /** One more part writes it and the separator after it. */
  lemma TerminatedSnoc(parts: seq<string>, x: string, sep: string)
    ensures Terminated(parts + [x], sep) == Terminated(parts, sep) + x + sep
  {
    assert (parts + [x])[..|parts|] == parts;
  }

  /** Every part preceded by the separator: what a loop writing "separator, then part" appends. */
  function Prefixed(parts: seq<string>, sep: string): string
  {
    if parts == [] then "" else Prefixed(parts[..|parts| - 1], sep) + sep + parts[|parts| - 1]
  }

  lemma ConcatAppend(a: seq<string>, b: seq<string>)
    ensures Concat(a + b) == Concat(a) + Concat(b)
    decreases |b|
  {
    if b != [] {
      var init := b[..|b| - 1];
      assert (a + b)[..|a + b| - 1] == a + init;
      assert (a + b)[|a + b| - 1] == b[|b| - 1];
      ConcatAppend(a, init);
      assert a + b != [];
      assert Concat(a + b) == Concat(a + init) + b[|b| - 1];
      assert Concat(b) == Concat(init) + b[|b| - 1];
    } else {
      assert a + b == a;
    }
  }

  /** Writing all but the last part with a separator after each, then the last, is the join. */
  lemma {:induction false} JoinAsTerminated(parts: seq<string>, sep: string)
    requires |parts| >= 1
    ensures Join(parts, sep) == Terminated(parts[..|parts| - 1], sep) + parts[|parts| - 1]
  {
    var n := |parts|;
    if n > 1 {
      var init := parts[..n - 1];
      assert parts == init + [parts[n - 1]];
      JoinSnoc(init, parts[n - 1], sep);
      JoinAsTerminated(init, sep);
      assert init[..|init| - 1] == parts[..n - 2];
      assert parts[..n - 1][..n - 2] == parts[..n - 2];
    }
  }

  /** A separator after every part is the join of the parts and one empty part. */
  lemma {:induction false} TerminatedIsJoin(parts: seq<string>, sep: string)
    ensures Terminated(parts, sep) == Join(parts + [""], sep)
  {
    if parts != [] {
      var n := |parts|;
      var init := parts[..n - 1];
      assert parts == init + [parts[n - 1]];
      if init == [] {
        assert parts + [""] == [parts[0], ""];
      } else {
        TerminatedIsJoin(init, sep);
        JoinSnoc(init, "", sep);
        JoinSnoc(init, parts[n - 1], sep);
        JoinSnoc(parts, "", sep);
      }
    }
  }

  /** A separator before every part is the separator followed by the join. */
  lemma {:induction false} PrefixedIsJoin(parts: seq<string>, sep: string)
    requires |parts| >= 1
    ensures Prefixed(parts, sep) == sep + Join(parts, sep)
  {
    var n := |parts|;
    if n > 1 {
      var init := parts[..n - 1];
      assert parts == init + [parts[n - 1]];
      PrefixedIsJoin(init, sep);
      JoinSnoc(init, parts[n - 1], sep);
    }
  }

  /** Parts joined around empty parts leave only the separators. */
  lemma {:induction false} JoinEmpties(parts: seq<string>, sep: string)
    requires |parts| >= 1
    requires forall k :: 0 <= k < |parts| ==> parts[k] == ""
    ensures Join(parts, sep) == Repeat(sep, |parts| - 1)
  {
    var n := |parts|;
    if n > 1 {
      var init := parts[..n - 1];
      assert parts == init + [parts[n - 1]];
      JoinEmpties(init, sep);
      JoinSnoc(init, parts[n - 1], sep);
    }
  }

  /** Text free of the separator's first character is one piece. */
  lemma {:induction false} SplitWhole(x: string, sep: string)
    requires |sep| > 0 && sep[0] !in x
    ensures Split(x, sep) == [x]
    decreases |x|
  {
    if |x| >= |sep| {
      assert x[..|sep|][0] == x[0];
      SplitWhole(x[1..], sep);
      assert x == [x[0]] + x[1..];
    }
  }

  /** The first separator after a piece free of its first character ends that piece. */
  lemma {:induction false} SplitAtFirst(x: string, sep: string, y: string)
    requires |sep| > 0 && sep[0] !in x
    ensures Split(x + sep + y, sep) == [x] + Split(y, sep)
    decreases |x|
  {
    var s := x + sep + y;
    if x == [] {
      assert s[..|sep|] == sep && s[|sep|..] == y;
    } else {
      assert s[..|sep|][0] == x[0];
      assert s[1..] == x[1..] + sep + y;
      SplitAtFirst(x[1..], sep, y);
      assert x == [x[0]] + x[1..];
    }
  }

  /** Joining parts free of the separator's first character and splitting again gives the parts back. */
  lemma {:induction false} SplitJoin(parts: seq<string>, sep: string)
    requires |sep| > 0 && |parts| >= 1
    requires forall k :: 0 <= k < |parts| ==> sep[0] !in parts[k]
    ensures Split(Join(parts, sep), sep) == parts
  {
    if |parts| == 1 {
      SplitWhole(parts[0], sep);
    } else {
      SplitJoin(parts[1..], sep);
      SplitAtFirst(parts[0], sep, Join(parts[1..], sep));
      assert parts == [parts[0]] + parts[1..];
    }
  }

  lemma Append3(t: string, a: string, b: string, c: string)
    ensures t + a + b + c == t + (a + b + c)
  {
  }

  lemma Append5(t: string, a: string, b: string, c: string, d: string, e: string)
    ensures t + a + b + c + d + e == t + (a + b + c + d + e)
  {
    Append3(t, a + b, c, d);
    Append2(t, a, b);
  }

  lemma Append2(t: string, a: string, b: string)
    ensures t + a + b == t + (a + b)
  {
  }
}
