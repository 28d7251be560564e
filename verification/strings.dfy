/** The few functions of Go's `strings` package the proxy relies on:
    `Contains`, `Join` and `Split` (with a non-empty separator), together
    with the facts about them the rest of the model needs. */
module Strings {

  /** `pre` occurs at the start of `s`. */
  predicate IsPrefix(pre: string, s: string) {
    |pre| <= |s| && s[..|pre|] == pre
  }

  /** `suf` occurs at the end of `s`. */
  predicate IsSuffix(suf: string, s: string) {
    |suf| <= |s| && s[|s| - |suf|..] == suf
  }

  lemma SuffixExtend(pre: string, s: string, suf: string)
    requires IsSuffix(suf, s)
    ensures IsSuffix(suf, pre + s)
  {
    assert (pre + s)[|pre + s| - |suf|..] == s[|s| - |suf|..];
  }

  /** strings.Contains: `sub` occurs somewhere in `s`. */
  predicate Contains(s: string, sub: string)
    decreases |s|
  {
    IsPrefix(sub, s) || (|s| > 0 && Contains(s[1..], sub))
  }

  /** strings.Join: the parts with `sep` between neighbours. */
  function Join(parts: seq<string>, sep: string): string
    decreases |parts|
  {
    if |parts| == 0 then ""
    else if |parts| == 1 then parts[0]
    else parts[0] + sep + Join(parts[1..], sep)
  }

  /** strings.Split for a non-empty separator: the pieces between the
      leftmost non-overlapping occurrences of `sep`, scanning from the left. */
  function Split(s: string, sep: string): (pieces: seq<string>)
    requires |sep| > 0
    ensures |pieces| >= 1
    decreases |s|
  {
    if IsPrefix(sep, s) then [""] + Split(s[|sep|..], sep)
    else if |s| == 0 then [""]
    else
      var rest := Split(s[1..], sep);
      [[s[0]] + rest[0]] + rest[1..]
  }

  lemma {:induction false} ContainsAppendLeft(a: string, b: string, sub: string)
    requires Contains(a, sub)
    ensures Contains(a + b, sub)
    decreases |a|
  {
    if IsPrefix(sub, a) {
      assert (a + b)[..|sub|] == a[..|sub|];
    } else {
      ContainsAppendLeft(a[1..], b, sub);
      assert (a + b)[1..] == a[1..] + b;
    }
  }

  lemma {:induction false} ContainsAppendRight(a: string, b: string, sub: string)
    requires Contains(b, sub)
    ensures Contains(a + b, sub)
    decreases |a|
  {
    if |a| > 0 {
      ContainsAppendRight(a[1..], b, sub);
      assert (a + b)[1..] == a[1..] + b;
    } else {
      assert a + b == b;
    }
  }

  /** A string in which the separator's first character never appears
      cannot contain the separator. */
  lemma {:induction false} NoLeadCharNoContains(s: string, sep: string)
    requires |sep| > 0
    requires forall i :: 0 <= i < |s| ==> s[i] != sep[0]
    ensures !Contains(s, sep)
    decreases |s|
  {
    if |s| > 0 {
      if |sep| <= |s| {
        assert s[..|sep|][0] != sep[0];
      }
      NoLeadCharNoContains(s[1..], sep);
    }
  }

  /** Appending a later part extends the joined text at its end. */
  lemma {:induction false} JoinAppend(parts: seq<string>, last: string, sep: string)
    requires |parts| >= 1
    ensures Join(parts + [last], sep) == Join(parts, sep) + sep + last
    decreases |parts|
  {
    if |parts| == 1 {
      assert parts + [last] == [parts[0], last];
      assert [parts[0], last][1..] == [last];
    } else {
      assert (parts + [last])[1..] == parts[1..] + [last];
      JoinAppend(parts[1..], last, sep);
    }
  }

  lemma JoinFirstIsPrefix(parts: seq<string>, sep: string)
    requires |parts| >= 1
    ensures IsPrefix(parts[0], Join(parts, sep))
  {
  }

  lemma JoinCons(first: string, rest: seq<string>, sep: string)
    requires |rest| >= 1
    ensures Join([first] + rest, sep) == first + sep + Join(rest, sep)
  {
    assert ([first] + rest)[1..] == rest;
  }

  /** When the separator occurs, the first piece is the text before its
      leftmost occurrence: the piece followed by the separator starts `s`. */
  lemma SplitFirstThenSep(s: string, sep: string)
    requires |sep| > 0 && Contains(s, sep)
    ensures IsPrefix(Split(s, sep)[0] + sep, s)
  {
    var parts := Split(s, sep);
    ContainsIffSplits(s, sep);
    JoinOfSplit(s, sep);
    assert parts == [parts[0]] + parts[1..];
    JoinCons(parts[0], parts[1..], sep);
  }

  /** Splitting and joining back with the same separator restores the text. */
  lemma {:induction false} JoinOfSplit(s: string, sep: string)
    requires |sep| > 0
    ensures Join(Split(s, sep), sep) == s
    decreases |s|, 1
  {
    if IsPrefix(sep, s) {
      JoinOfSplitAtSep(s, sep);
    } else if |s| > 0 {
      JoinOfSplitAtChar(s, sep);
    }
  }

  lemma {:induction false} JoinOfSplitAtSep(s: string, sep: string)
    requires |sep| > 0 && IsPrefix(sep, s)
    ensures Join(Split(s, sep), sep) == s
    decreases |s|, 0
  {
    var tail := s[|sep|..];
    var rest := Split(tail, sep);
    assert Split(s, sep) == [""] + rest by { SplitAtSep(s, sep); }
    assert Join(rest, sep) == tail by { JoinOfSplit(tail, sep); }
    assert Join([""] + rest, sep) == sep + Join(rest, sep) by {
      JoinCons("", rest, sep);
      assert "" + sep == sep;
    }
  }

  lemma {:induction false} JoinOfSplitAtChar(s: string, sep: string)
    requires |sep| > 0 && !IsPrefix(sep, s) && |s| > 0
    ensures Join(Split(s, sep), sep) == s
    decreases |s|, 0
  {
    var rest := Split(s[1..], sep);
    assert Split(s, sep) == [[s[0]] + rest[0]] + rest[1..] by { SplitAtChar(s, sep); }
    assert Join(rest, sep) == s[1..] by { JoinOfSplit(s[1..], sep); }
    assert Join([[s[0]] + rest[0]] + rest[1..], sep) == [s[0]] + Join(rest, sep) by {
      JoinConsChar(s[0], rest, sep);
    }
    assert s == [s[0]] + s[1..];
  }

  /** Split, one step, when `s` starts with the separator. */
  lemma SplitAtSep(s: string, sep: string)
    requires |sep| > 0 && IsPrefix(sep, s)
    ensures Split(s, sep) == [""] + Split(s[|sep|..], sep)
  {
  }

  /** Split, one step, when `s` starts with an ordinary character. */
  lemma SplitAtChar(s: string, sep: string)
    requires |sep| > 0 && !IsPrefix(sep, s) && |s| > 0
    ensures var rest := Split(s[1..], sep);
      Split(s, sep) == [[s[0]] + rest[0]] + rest[1..]
  {
  }

  /** Prefixing the first part with a character prefixes the joined text. */
  lemma JoinConsChar(c: char, parts: seq<string>, sep: string)
    requires |parts| >= 1
    ensures Join([[c] + parts[0]] + parts[1..], sep) == [c] + Join(parts, sep)
  {
    var head := [c] + parts[0];
    if |parts| == 1 {
      assert [head] + parts[1..] == [head];
    } else {
      assert parts == [parts[0]] + parts[1..];
      JoinCons(parts[0], parts[1..], sep);
      JoinCons(head, parts[1..], sep);
    }
  }

  /** No piece produced by Split contains the separator. */
  lemma {:induction false} SplitPiecesAvoidSep(s: string, sep: string)
    requires |sep| > 0
    ensures forall i :: 0 <= i < |Split(s, sep)| ==> !Contains(Split(s, sep)[i], sep)
    decreases |s|
  {
    var ps := Split(s, sep);
    if IsPrefix(sep, s) {
      SplitPiecesAvoidSep(s[|sep|..], sep);
      var rest := Split(s[|sep|..], sep);
      assert ps == [""] + rest by { SplitAtSep(s, sep); }
      forall i | 0 <= i < |ps|
        ensures !Contains(ps[i], sep)
      {
        if i > 0 {
          assert ps[i] == rest[i - 1];
        }
      }
    } else if |s| == 0 {
    } else {
      var rest := Split(s[1..], sep);
      SplitPiecesAvoidSep(s[1..], sep);
      var head := [s[0]] + rest[0];
      assert ps == [head] + rest[1..] by { SplitAtChar(s, sep); }
      // head is a prefix of s, and s does not start with sep
      assert !Contains(head, sep) by {
        assert IsPrefix(rest[0], s[1..]) by {
          JoinOfSplit(s[1..], sep);
          JoinFirstIsPrefix(rest, sep);
        }
        assert s[..|head|] == head;
        assert head[1..] == rest[0];
        if |sep| <= |head| {
          assert s[..|sep|] == head[..|sep|];
        }
      }
      forall i | 0 <= i < |ps|
        ensures !Contains(ps[i], sep)
      {
        if i > 0 {
          assert ps[i] == rest[i];
        }
      }
    }
  }

  /** The text contains the separator exactly when Split cuts it. */
  lemma ContainsIffSplits(s: string, sep: string)
    requires |sep| > 0
    ensures Contains(s, sep) <==> |Split(s, sep)| >= 2
  {
    var ps := Split(s, sep);
    if |ps| >= 2 {
      var after := sep + Join(ps[1..], sep);
      assert s == ps[0] + after by {
        JoinOfSplit(s, sep);
        assert ps == [ps[0]] + ps[1..];
        JoinCons(ps[0], ps[1..], sep);
      }
      assert IsPrefix(sep, after);
      ContainsAppendRight(ps[0], after, sep);
    } else {
      assert s == ps[0] by { JoinOfSplit(s, sep); }
      SplitPiecesAvoidSep(s, sep);
    }
  }

  /** Text without the separator splits into itself alone. */
  lemma SplitWithoutSep(s: string, sep: string)
    requires |sep| > 0
    requires !Contains(s, sep)
    ensures Split(s, sep) == [s]
  {
    ContainsIffSplits(s, sep);
    JoinOfSplit(s, sep);
  }

  /** With two or more parts, the joined text ends with the separator
      followed by the last part. */
  lemma JoinEndsWithLast(parts: seq<string>, sep: string)
    requires |parts| >= 2
    ensures IsSuffix(sep + parts[|parts| - 1], Join(parts, sep))
  {
    var n := |parts|;
    var init := parts[..n - 1];
    var last := parts[n - 1];
    assert parts == init + [last];
    JoinAppend(init, last, sep);
    var front := Join(init, sep);
    assert Join(parts, sep) == front + (sep + last);
  }

  /** When the separator occurs, the text ends with the separator followed by
      the last piece. */
  lemma SplitLastIsTail(s: string, sep: string)
    requires |sep| > 0
    requires Contains(s, sep)
    ensures IsSuffix(sep + Split(s, sep)[|Split(s, sep)| - 1], s)
  {
    var ps := Split(s, sep);
    ContainsIffSplits(s, sep);
    JoinOfSplit(s, sep);
    JoinEndsWithLast(ps, sep);
  }

  /** A leading piece free of the separator's first character is cut off
      at the separator that follows it. */
  lemma {:induction false} SplitAfterFreePiece(x: string, sep: string, rest: string)
    requires |sep| > 0
    requires forall i :: 0 <= i < |x| ==> x[i] != sep[0]
    ensures Split(x + sep + rest, sep) == [x] + Split(rest, sep)
    decreases |x|
  {
    var s := x + sep + rest;
    if |x| == 0 {
      assert s == sep + rest;
      assert IsPrefix(sep, s);
      assert s[|sep|..] == rest;
    } else {
      assert s[0] == x[0];
      assert !IsPrefix(sep, s);
      assert s[1..] == x[1..] + sep + rest;
      SplitAfterFreePiece(x[1..], sep, rest);
      assert [x[0]] + x[1..] == x;
    }
  }

  /** Join is undone by Split when no value carries the separator's first
      character: the values come back complete and in their original order. */
  lemma {:induction false} SplitOfJoin(parts: seq<string>, sep: string)
    requires |sep| > 0 && |parts| >= 1
    requires forall i, j :: 0 <= i < |parts| && 0 <= j < |parts[i]| ==> parts[i][j] != sep[0]
    ensures Split(Join(parts, sep), sep) == parts
    decreases |parts|
  {
    if |parts| == 1 {
      NoLeadCharNoContains(parts[0], sep);
      SplitWithoutSep(parts[0], sep);
    } else {
      SplitOfJoin(parts[1..], sep);
      SplitAfterFreePiece(parts[0], sep, Join(parts[1..], sep));
      assert [parts[0]] + parts[1..] == parts;
    }
  }
}
