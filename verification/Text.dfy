/**
 String operations of Go's `strings` package that several components lean on:
 splitting and joining on one separator character, and trimming by a cutset.
 */
module Text {

  function Join(parts: seq<string>, sep: char): string
  {
    if |parts| == 0 then ""
    else if |parts| == 1 then parts[0]
    else parts[0] + [sep] + Join(parts[1..], sep)
  }

  function Split(s: string, sep: char): (parts: seq<string>)
    ensures |parts| > 0
    ensures forall i :: 0 <= i < |parts| ==> sep !in parts[i]
  {
    if s == "" then [""]
    else
      var rest := Split(s[1..], sep);
      if s[0] == sep then [""] + rest else [[s[0]] + rest[0]] + rest[1..]
  }

  function TrimLeft(s: string, cut: char -> bool): (t: string)
  {
    if s != "" && cut(s[0]) then TrimLeft(s[1..], cut) else s
  }

  function TrimRight(s: string, cut: char -> bool): (t: string)
  {
    if s != "" && cut(s[|s| - 1]) then TrimRight(s[..|s| - 1], cut) else s
  }

  function Trim(s: string, cut: char -> bool): (t: string)
  {
    TrimRight(TrimLeft(s, cut), cut)
  }

  /** `unicode.IsSpace`. */
  predicate IsSpace(c: char)
  {
    || c == ' ' || '\t' <= c <= '\r' || c == '\U{0085}' || c == '\U{00A0}' || c == '\U{1680}'
    || '\U{2000}' <= c <= '\U{200A}' || c == '\U{2028}' || c == '\U{2029}' || c == '\U{202F}'
    || c == '\U{205F}' || c == '\U{3000}'
  }

  /** `strings.TrimSpace`. */
  function TrimSpace(s: string): string
  {
    Trim(s, IsSpace)
  }

  ghost predicate Over(s: string, cut: char -> bool)
  {
    forall i :: 0 <= i < |s| ==> cut(s[i])
  }

  /** Neither end of `s` is in the cutset. */
  predicate Trimmed(s: string, cut: char -> bool)
  {
    s == "" || (!cut(s[0]) && !cut(s[|s| - 1]))
  }

  /** Separator-free parts survive a join followed by a split. */
  lemma {:induction false} SplitJoin(parts: seq<string>, sep: char)
    requires |parts| > 0
    requires forall i :: 0 <= i < |parts| ==> sep !in parts[i]
    ensures Split(Join(parts, sep), sep) == parts
  {
    if |parts| == 1 {
      SplitWithout(parts[0], sep);
    } else {
      SplitPrefix(parts[0], Join(parts[1..], sep), sep);
      SplitJoin(parts[1..], sep);
    }
  }

  lemma {:induction false} JoinSplit(s: string, sep: char)
    ensures Join(Split(s, sep), sep) == s
  {
    if s != "" {
      JoinSplit(s[1..], sep);
      var rest := Split(s[1..], sep);
      if s[0] == sep {
        assert ([""] + rest)[1..] == rest;
      } else {
        var all := [[s[0]] + rest[0]] + rest[1..];
        assert all[1..] == rest[1..];
        if |rest| > 1 {
          assert [s[0]] + rest[0] + [sep] + Join(rest[1..], sep) == [s[0]] + (rest[0] + [sep] + Join(rest[1..], sep));
        }
      }
    }
  }

  lemma {:induction false} SplitWithout(p: string, sep: char)
    requires sep !in p
    ensures Split(p, sep) == [p]
  {
    if p != "" {
      SplitWithout(p[1..], sep);
      assert [p[0]] + p[1..] == p;
    }
  }

  lemma {:induction false} SplitPrefix(p: string, s: string, sep: char)
    requires sep !in p
    ensures Split(p + [sep] + s, sep) == [p] + Split(s, sep)
  {
    var whole := p + [sep] + s;
    if p == "" {
      assert whole[1..] == s;
    } else {
      assert whole[1..] == p[1..] + [sep] + s;
      SplitPrefix(p[1..], s, sep);
      assert [p[0]] + p[1..] == p;
    }
  }

  /** Trimming strips exactly a prefix and a suffix made of cutset characters. */
  lemma {:induction false} TrimPadded(left: string, s: string, right: string, cut: char -> bool)
    requires Over(left, cut) && Over(right, cut) && Trimmed(s, cut)
    ensures Trim(left + s + right, cut) == s
  {
    TrimLeftPadded(left, s + right, cut);
    assert left + s + right == left + (s + right);
    if s == "" {
      assert s + right == right;
      TrimLeftPadded(right, "", cut);
      assert right + "" == right;
    } else {
      TrimRightPadded(s, right, cut);
    }
  }

  lemma {:induction false} TrimLeftPadded(left: string, s: string, cut: char -> bool)
    requires Over(left, cut)
    ensures TrimLeft(left + s, cut) == TrimLeft(s, cut)
  {
    if left == "" {
      assert left + s == s;
    } else {
      assert (left + s)[1..] == left[1..] + s;
      TrimLeftPadded(left[1..], s, cut);
    }
  }

  lemma {:induction false} TrimRightPadded(s: string, right: string, cut: char -> bool)
    requires Over(right, cut)
    requires s != "" && !cut(s[|s| - 1])
    ensures TrimRight(s + right, cut) == s
  {
    if right == "" {
      assert s + right == s;
    } else {
      assert (s + right)[..|s + right| - 1] == s + right[..|right| - 1];
      TrimRightPadded(s, right[..|right| - 1], cut);
    }
  }

  lemma {:induction false} TrimIsTrimmed(s: string, cut: char -> bool)
    ensures Trimmed(Trim(s, cut), cut)
    ensures forall c :: c in Trim(s, cut) ==> c in s
  {
    TrimLeftShape(s, cut);
    TrimRightShape(TrimLeft(s, cut), cut);
  }

  lemma {:induction false} TrimLeftShape(s: string, cut: char -> bool)
    ensures TrimLeft(s, cut) == "" || !cut(TrimLeft(s, cut)[0])
    ensures forall c :: c in TrimLeft(s, cut) ==> c in s
  {
    if s != "" && cut(s[0]) { TrimLeftShape(s[1..], cut); }
  }

  lemma {:induction false} TrimRightShape(s: string, cut: char -> bool)
    ensures TrimRight(s, cut) <= s
    ensures TrimRight(s, cut) == "" || !cut(TrimRight(s, cut)[|TrimRight(s, cut)| - 1])
  {
    if s != "" && cut(s[|s| - 1]) { TrimRightShape(s[..|s| - 1], cut); }
  }

  lemma TrimFixed(s: string, cut: char -> bool)
    requires Trimmed(s, cut)
    ensures Trim(s, cut) == s
  {
  }

  /** The ends of a join are the ends of its first and last parts. */
  lemma {:induction false} JoinEnds(parts: seq<string>, sep: char)
    requires |parts| > 0 && parts[0] != "" && parts[|parts| - 1] != ""
    ensures var j := Join(parts, sep); var last := parts[|parts| - 1];
            j != "" && j[0] == parts[0][0] && j[|j| - 1] == last[|last| - 1]
  {
    if |parts| > 1 { JoinLast(parts, sep); }
  }

  lemma {:induction false} JoinLast(parts: seq<string>, sep: char)
    requires |parts| > 0 && parts[|parts| - 1] != ""
    ensures var j := Join(parts, sep); var last := parts[|parts| - 1];
            j != "" && j[|j| - 1] == last[|last| - 1]
  {
    if |parts| > 1 { JoinLast(parts[1..], sep); }
  }
}
