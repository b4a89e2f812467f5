/** The java.lang.String operations the ingest helpers rely on, over `string`.

    One whitespace notion is used throughout: a character is space when it is
    at or below U+0020, which is what `String.trim` strips. `String.isBlank`
    is modelled with the same predicate.
 */
module Text {

  import opened Basics

  predicate IsSpace(c: char) {
    c <= ' '
  }

  predicate IsBlank(s: string) {
    forall i :: 0 <= i < |s| ==> IsSpace(s[i])
  }

  /** Neither end is a space character: what `trim` leaves behind. */
  predicate Trimmed(s: string) {
    |s| == 0 || (!IsSpace(s[0]) && !IsSpace(s[|s| - 1]))
  }

  /** The first loop of `String.trim`: skips space characters from `st` on. */
  function SkipLeading(s: string, st: nat): (r: nat)
    requires st <= |s|
    ensures st <= r <= |s|
    ensures forall k :: st <= k < r ==> IsSpace(s[k])
    ensures r < |s| ==> !IsSpace(s[r])
    decreases |s| - st
  {
    if st < |s| && IsSpace(s[st]) then SkipLeading(s, st + 1) else st
  }

  /** The second loop of `String.trim`: moves the end back over space
      characters, never past `st`. */
  function SkipTrailing(s: string, st: nat, len: nat): (r: nat)
    requires st <= len <= |s|
    ensures st <= r <= len
    ensures forall k :: r <= k < len ==> IsSpace(s[k])
    ensures st < r ==> !IsSpace(s[r - 1])
    decreases len
  {
    if st < len && IsSpace(s[len - 1]) then SkipTrailing(s, st, len - 1) else len
  }

  /** `String.trim`: drops the leading and trailing space characters. */
  function Trim(s: string): (r: string)
    ensures Trimmed(r)
    ensures |r| == 0 <==> IsBlank(s)
  {
    var st := SkipLeading(s, 0);
    var len := SkipTrailing(s, st, |s|);
    var r := s[st..len];
    assert |r| > 0 ==> r[0] == s[st] && r[|r| - 1] == s[len - 1];
    assert |r| == 0 ==> st == |s|;
    r
  }

  /** The trimmed string is the slice of `s` between its leading and its
      trailing run of space characters. */
  lemma TrimSlice(s: string)
    ensures var r, i := Trim(s), SkipLeading(s, 0);
            && i + |r| <= |s| && r == s[i..i + |r|]
            && (forall k :: 0 <= k < i ==> IsSpace(s[k]))
            && (forall k :: i + |r| <= k < |s| ==> IsSpace(s[k]))
  {
    var st := SkipLeading(s, 0);
    var len := SkipTrailing(s, st, |s|);
    assert Trim(s) == s[st..len];
  }

  /** Trimming removes characters and adds none. */
  lemma TrimChars(s: string)
    ensures forall c :: c in Trim(s) ==> c in s
  {
    TrimSlice(s);
    var r, i := Trim(s), SkipLeading(s, 0);
    forall c | c in r ensures c in s {
      var k :| 0 <= k < |r| && r[k] == c;
      assert s[i + k] == c;
    }
  }

  /** Trimming a trimmed string changes nothing. */
  lemma TrimTrimmed(s: string)
    requires Trimmed(s)
    ensures Trim(s) == s
  {
  }

  /** `String.replace(c, "")` for a one-character target: removes every `c`
      and keeps every other character as often as it occurs. */
  function Remove(s: string, c: char): (r: string)
    ensures multiset(r) == multiset(s)[c := 0]
    ensures c !in r
    ensures forall d :: d != c ==> (d in r <==> d in s)
    ensures c !in s ==> r == s
  {
    if |s| == 0 then ""
    else
      var r := (if s[0] == c then "" else [s[0]]) + Remove(s[1..], c);
      assert s == [s[0]] + s[1..];
      r
  }

  /** Removal works piece by piece and keeps the order of what it keeps:
      it distributes over concatenation, and a single character goes
      exactly when it is `c`. */
  lemma {:induction false} RemoveAppend(a: string, b: string, c: char)
    ensures Remove(a + b, c) == Remove(a, c) + Remove(b, c)
    ensures |a| == 1 ==> Remove(a, c) == (if a[0] == c then "" else a)
  {
    if |a| > 0 {
      var h := if a[0] == c then "" else [a[0]];
      assert (a + b)[0] == a[0] && (a + b)[1..] == a[1..] + b;
      assert Remove(a + b, c) == h + Remove(a[1..] + b, c);
      assert Remove(a, c) == h + Remove(a[1..], c);
      RemoveAppend(a[1..], b, c);
      ConcatAssoc(h, Remove(a[1..], c), Remove(b, c));
      if |a| == 1 {
        assert a[1..] == [];
      }
    } else {
      assert a + b == b;
    }
  }

  /** Every piece between two separators, keeping empty pieces:
      `Split("a,,b", ',') == ["a", "", "b"]`, and a string without a separator
      is a single piece. */
  function Split(s: string, sep: char): (r: seq<string>)
    ensures |r| >= 1
    ensures forall i :: 0 <= i < |r| ==> sep !in r[i]
    ensures Join(r, sep) == s
  {
    if |s| == 0 then [""]
    else if s[0] == sep then
      var rest := Split(s[1..], sep);
      assert s == [sep] + s[1..];
      [""] + rest
    else
      var rest := Split(s[1..], sep);
      var r := [[s[0]] + rest[0]] + rest[1..];
      JoinHead(s[0], rest, sep);
      assert s == [s[0]] + s[1..];
      r
  }

  /** The summed length of the pieces. */
  function TotalLength(xs: seq<string>): nat {
    if |xs| == 0 then 0 else |xs[0]| + TotalLength(xs[1..])
  }

  /** `String.join`: the pieces with one separator between neighbours, so
      the join is as long as the pieces together plus one separator fewer
      than there are pieces. */
  function Join(xs: seq<string>, sep: char): (r: string)
    ensures |r| == if |xs| == 0 then 0 else TotalLength(xs) + |xs| - 1
  {
    if |xs| == 0 then ""
    else if |xs| == 1 then xs[0]
    else xs[0] + [sep] + Join(xs[1..], sep)
  }

  lemma JoinHead(c: char, xs: seq<string>, sep: char)
    requires |xs| >= 1
    ensures Join([[c] + xs[0]] + xs[1..], sep) == [c] + Join(xs, sep)
  {
    var ys := [[c] + xs[0]] + xs[1..];
    assert ys[1..] == xs[1..];
  }

  /** A string free of the separator is one piece. */
  lemma {:induction false} SplitWhole(a: string, sep: char)
    requires sep !in a
    ensures Split(a, sep) == [a]
  {
    if |a| > 0 {
      SplitWhole(a[1..], sep);
    }
  }

  /** The first separator of `a + [sep] + t` ends the first piece. */
  lemma {:induction false} SplitAtSeparator(a: string, t: string, sep: char)
    requires sep !in a
    ensures Split(a + [sep] + t, sep) == [a] + Split(t, sep)
  {
    var s := a + [sep] + t;
    if |a| == 0 {
      assert s[1..] == t;
    } else {
      assert s[1..] == a[1..] + [sep] + t;
      SplitAtSeparator(a[1..], t, sep);
      assert [a[0]] + a[1..] == a;
    }
  }

  /** Splitting a join gives the pieces back, when no piece holds the separator. */
  lemma {:induction false} SplitJoin(xs: seq<string>, sep: char)
    requires |xs| >= 1
    requires forall i :: 0 <= i < |xs| ==> sep !in xs[i]
    ensures Split(Join(xs, sep), sep) == xs
  {
    if |xs| == 1 {
      SplitWhole(xs[0], sep);
    } else {
      SplitJoin(xs[1..], sep);
      SplitAtSeparator(xs[0], Join(xs[1..], sep), sep);
      assert [xs[0]] + xs[1..] == xs;
    }
  }

  /** A join holds only the pieces' characters and the separator. */
  lemma {:induction false} JoinChars(xs: seq<string>, sep: char, c: char)
    requires c in Join(xs, sep)
    ensures c == sep || exists i :: 0 <= i < |xs| && c in xs[i]
  {
    if |xs| > 1 {
      var j := Join(xs[1..], sep);
      assert Join(xs, sep) == xs[0] + [sep] + j;
      if c !in xs[0] && c != sep {
        assert c in j;
        JoinChars(xs[1..], sep, c);
        var i :| 0 <= i < |xs[1..]| && c in xs[1..][i];
        assert c in xs[i + 1];
      }
    }
  }

  /** Every character of every piece is in the join. */
  lemma {:induction false} JoinContains(xs: seq<string>, sep: char, j: nat, c: char)
    requires j < |xs| && c in xs[j]
    ensures c in Join(xs, sep)
  {
    if |xs| > 1 {
      assert Join(xs, sep) == xs[0] + [sep] + Join(xs[1..], sep);
      if j > 0 {
        assert xs[1..][j - 1] == xs[j];
        JoinContains(xs[1..], sep, j - 1, c);
      }
    }
  }

  /** A join starts with its first piece. */
  lemma {:induction false} JoinStartsWithFirst(xs: seq<string>, sep: char)
    requires |xs| >= 1
    ensures xs[0] <= Join(xs, sep)
  {
  }
}
