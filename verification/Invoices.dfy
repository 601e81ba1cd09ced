/**
 The vendor invoice parameter of the reconciliation endpoints
 (controller/reconcile.go): comma-separated `vendor:amount` pairs, parsed by
 hand-written character loops. Strings are sequences of runes, and what the
 number parser yields is left open.
 */
module Invoices {
  import opened Basics
  import opened Text

  datatype Result<T> = Ok(value: T) | BadEntry(pair: string) | BadAmount(vendor: string, amount: string)

  predicate IsBlank(c: char)
  {
    c == ' ' || c == '\t'
  }

  function Stripped(s: string): string
  {
    Trim(s, IsBlank)
  }

  method TrimSpace(value: string) returns (trimmed: string)
    ensures trimmed == Stripped(value)
  {
    var start, end := 0, |value|;
    while start < end && IsBlank(value[start])
      invariant 0 <= start <= end
      invariant Over(value[..start], IsBlank)
    {
      start := start + 1;
    }
    while end > start && IsBlank(value[end - 1])
      invariant start <= end <= |value|
      invariant Over(value[end..], IsBlank)
    {
      end := end - 1;
    }
    trimmed := value[start..end];
    assert value == value[..start] + trimmed + value[end..];
    TrimPadded(value[..start], trimmed, value[end..], IsBlank);
  }

  /** Trim every part and drop the ones that are then empty. */
  function Kept(parts: seq<string>): seq<string>
  {
    if parts == [] then []
    else (if Stripped(parts[0]) == "" then [] else [Stripped(parts[0])]) + Kept(parts[1..])
  }

  /** The first part grown on the left. */
  function Glued(current: string, parts: seq<string>): seq<string>
    requires |parts| > 0
  {
    [current + parts[0]] + parts[1..]
  }

  lemma GlueNothing(parts: seq<string>)
    requires |parts| > 0
    ensures Glued("", parts) == parts
  {
    assert "" + parts[0] == parts[0];
  }

  lemma GlueSeparator(current: string, rest: seq<string>)
    ensures Kept(Glued(current, [""] + rest)) == Kept([current]) + Kept(rest)
  {
    assert current + "" == current;
    assert Glued(current, [""] + rest) == [current] + rest;
    assert ([current] + rest)[1..] == rest;
    assert [current][1..] == [];
  }

  lemma GlueChar(current: string, c: char, rest: seq<string>)
    requires |rest| > 0
    ensures Glued(current, [[c] + rest[0]] + rest[1..]) == Glued(current + [c], rest)
  {
    assert current + ([c] + rest[0]) == current + [c] + rest[0];
  }

  /** Reading on at a separator finishes the current part. */
  lemma AtSeparator(current: string, text: string, sep: char)
    requires text != "" && text[0] == sep
    ensures Kept(Glued(current, Split(text, sep))) == Kept([current]) + Kept(Glued("", Split(text[1..], sep)))
  {
    GlueSeparator(current, Split(text[1..], sep));
    GlueNothing(Split(text[1..], sep));
  }

  /** Reading on at any other character grows it. */
  lemma AtCharacter(current: string, text: string, sep: char)
    requires text != "" && text[0] != sep
    ensures Glued(current, Split(text, sep)) == Glued(current + [text[0]], Split(text[1..], sep))
  {
    GlueChar(current, text[0], Split(text[1..], sep));
  }

  lemma KeptOne(current: string)
    ensures Kept([current]) == if Stripped(current) == "" then [] else [Stripped(current)]
    ensures Glued(current, [""]) == [current]
  {
    assert [current][1..] == [] && current + "" == current;
  }

  /** What is still to come: the rest of the text, glued to the part under way. */
  ghost predicate Reads(out: seq<string>, current: string, text: string, sep: char, all: seq<string>)
  {
    out + Kept(Glued(current, Split(text, sep))) == all
  }

  lemma ReadsOn(out: seq<string>, current: string, text: string, sep: char, all: seq<string>)
    requires text != "" && Reads(out, current, text, sep, all)
    ensures if text[0] == sep then Reads(out + Kept([current]), "", text[1..], sep, all)
            else Reads(out, current + [text[0]], text[1..], sep, all)
  {
    if text[0] == sep {
      AtSeparator(current, text, sep);
      Regroup(out, Kept([current]), Kept(Glued("", Split(text[1..], sep))));
    } else {
      AtCharacter(current, text, sep);
    }
  }

  lemma Regroup(a: seq<string>, b: seq<string>, c: seq<string>)
    ensures a + (b + c) == a + b + c
  {
  }

  method Flush(parts: seq<string>, current: string) returns (out: seq<string>)
    ensures out == parts + Kept([current])
  {
    KeptOne(current);
    out := parts;
    var trimmed := TrimSpace(current);
    if trimmed != "" { out := out + [trimmed]; }
  }

  method SplitAndTrim(raw: string, sep: char) returns (out: seq<string>)
    ensures out == Kept(Split(raw, sep))
  {
    out := [];
    var current := "";
    GlueNothing(Split(raw, sep));
    assert raw[0..] == raw;
    for i := 0 to |raw|
      invariant Reads(out, current, raw[i..], sep, Kept(Split(raw, sep)))
    {
      ReadsOn(out, current, raw[i..], sep, Kept(Split(raw, sep)));
      assert raw[i..][1..] == raw[i + 1..];
      if raw[i] == sep {
        out := Flush(out, current);
        current := "";
      } else {
        current := current + [raw[i]];
      }
    }
    KeptOne(current);
    out := Flush(out, current);
  }

  /** The index of the last separator, or -1. */
  function LastIndex(value: string, sep: char): (i: int)
    ensures -1 <= i < |value|
    ensures i >= 0 ==> value[i] == sep
    ensures forall j :: i < j < |value| ==> value[j] != sep
  {
    if value == "" then -1
    else if value[|value| - 1] == sep then |value| - 1
    else LastIndex(value[..|value| - 1], sep)
  }

  method CutLast(value: string, sep: char) returns (before: string, after: string, found: bool)
    ensures var i := LastIndex(value, sep);
            if i < 0 then before == value && after == "" && !found
            else found && before == Stripped(value[..i]) && after == Stripped(value[i + 1..])
  {
    var i := |value| - 1;
    while i >= 0
      invariant -1 <= i < |value|
      invariant forall j :: i < j < |value| ==> value[j] != sep
    {
      if value[i] == sep {
        LastIndexIs(value, sep, i);
        before := TrimSpace(value[..i]);
        after := TrimSpace(value[i + 1..]);
        return before, after, true;
      }
      i := i - 1;
    }
    return value, "", false;
  }

  lemma LastIndexIs(value: string, sep: char, i: nat)
    requires i < |value| && value[i] == sep && forall j :: i < j < |value| ==> value[j] != sep
    ensures LastIndex(value, sep) == i
  {
  }

  // ----- Pairs -----

  function Entry<Amount>(pair: string, parse: string -> Option<Amount>): Result<(string, Amount)>
  {
    var i := LastIndex(pair, ':');
    if i < 0 || Stripped(pair[..i]) == "" then BadEntry(pair)
    else
      var vendor, amount := Stripped(pair[..i]), Stripped(pair[i + 1..]);
      if parse(amount).None? then BadAmount(vendor, amount) else Ok((vendor, parse(amount).value))
  }

  /** Later pairs overwrite earlier ones; the first bad pair is the answer. */
  function Totals<Amount>(pairs: seq<string>, parse: string -> Option<Amount>): Result<map<string, Amount>>
  {
    if pairs == [] then Ok(map[])
    else
      match Totals(pairs[..|pairs| - 1], parse)
      case Ok(m) =>
        (match Entry(pairs[|pairs| - 1], parse)
         case Ok(e) => Ok(m[e.0 := e.1])
         case BadEntry(p) => BadEntry(p)
         case BadAmount(v, a) => BadAmount(v, a))
      case BadEntry(p) => BadEntry(p)
      case BadAmount(v, a) => BadAmount(v, a)
  }

  method ParseInvoicedTotals<Amount>(raw: string, parse: string -> Option<Amount>)
      returns (r: Result<map<string, Amount>>)
    ensures r == Totals(Kept(Split(raw, ',')), parse)
  {
    if raw == "" {
      assert Split(raw, ',') == [""] && [""][1..] == [];
      return Ok(map[]);
    }
    var out: map<string, Amount> := map[];
    var pairs := SplitAndTrim(raw, ',');
    for i := 0 to |pairs|
      invariant Totals(pairs[..i], parse) == Ok(out)
    {
      assert pairs[..i + 1][..i] == pairs[..i];
      var entry := ReadPair(pairs[i], parse);
      match entry
      case Ok(e) => out := out[e.0 := e.1];
      case BadEntry(pair) =>
        BadStays(pairs, parse, i + 1);
        return BadEntry(pair);
      case BadAmount(vendor, amount) =>
        BadStays(pairs, parse, i + 1);
        return BadAmount(vendor, amount);
    }
    assert pairs[..|pairs|] == pairs;
    return Ok(out);
  }

  method ReadPair<Amount>(pair: string, parse: string -> Option<Amount>) returns (r: Result<(string, Amount)>)
    ensures r == Entry(pair, parse)
  {
    var vendor, amount, found := CutLast(pair, ':');
    if !found || vendor == "" { return BadEntry(pair); }
    var parsed := parse(amount);
    if parsed.None? { return BadAmount(vendor, amount); }
    return Ok((vendor, parsed.value));
  }

  lemma {:induction false} BadStays<Amount>(pairs: seq<string>, parse: string -> Option<Amount>, n: nat)
    requires n <= |pairs| && !Totals(pairs[..n], parse).Ok?
    ensures Totals(pairs, parse) == Totals(pairs[..n], parse)
    decreases |pairs|
  {
    if n == |pairs| {
      assert pairs[..n] == pairs;
    } else {
      assert pairs[..|pairs| - 1][..n] == pairs[..n];
      BadStays(pairs[..|pairs| - 1], parse, n);
    }
  }

  // ----- Printing and reading back -----

  /** One comma-separated field as somebody may type it: nothing but blanks, or a pair with blanks around its parts. */
  datatype Field =
    | Blanks(pad: string)
    | Pair(left: string, vendor: string, beforeColon: string, afterColon: string, amount: string, right: string)

  function Print(f: Field): string
  {
    match f
    case Blanks(pad) => pad
    case Pair(left, _, _, _, _, right) => left + Core(f) + right
  }

  function Core(f: Field): string
    requires f.Pair?
  {
    f.vendor + f.beforeColon + ":" + (f.afterColon + f.amount)
  }

  /** Vendors may contain colons; amounts are whatever the number parser reads. */
  ghost predicate Printable<Amount>(f: Field, parse: string -> Option<Amount>)
  {
    match f
    case Blanks(pad) => Over(pad, IsBlank)
    case Pair(left, vendor, beforeColon, afterColon, amount, right) =>
      && Over(left, IsBlank) && Over(beforeColon, IsBlank) && Over(afterColon, IsBlank) && Over(right, IsBlank)
      && vendor != "" && Trimmed(vendor, IsBlank) && ',' !in vendor
      && amount != "" && Trimmed(amount, IsBlank) && ',' !in amount && ':' !in amount
      && parse(amount).Some?
  }

  function PrintAll(fields: seq<Field>): (parts: seq<string>)
    ensures |parts| == |fields| && forall i :: 0 <= i < |fields| ==> parts[i] == Print(fields[i])
  {
    seq(|fields|, i requires 0 <= i < |fields| => Print(fields[i]))
  }

  function Meant<Amount>(fields: seq<Field>, parse: string -> Option<Amount>): map<string, Amount>
  {
    if fields == [] then map[]
    else
      var before := Meant(fields[..|fields| - 1], parse);
      var f := fields[|fields| - 1];
      if f.Pair? && parse(f.amount).Some? then before[f.vendor := parse(f.amount).value] else before
  }

  /** Printing any fields and parsing them gives back exactly their amounts. */
  lemma RoundTrip<Amount>(fields: seq<Field>, parse: string -> Option<Amount>)
    requires forall i :: 0 <= i < |fields| ==> Printable(fields[i], parse)
    ensures Totals(Kept(Split(Join(PrintAll(fields), ','), ',')), parse) == Ok(Meant(fields, parse))
  {
    if fields == [] {
      assert Split("", ',') == [""] && [""][1..] == [];
    } else {
      forall i | 0 <= i < |fields|
        ensures ',' !in PrintAll(fields)[i]
      {
        NoComma(fields[i], parse);
      }
      SplitJoin(PrintAll(fields), ',');
      ReadAll(fields, parse);
    }
  }

  /** With distinct vendors every pair is in the map with its own amount, and nothing else is. */
  lemma {:induction false} MeantIs<Amount>(fields: seq<Field>, parse: string -> Option<Amount>)
    requires forall i :: 0 <= i < |fields| ==> Printable(fields[i], parse)
    requires forall i, j :: 0 <= i < j < |fields| && fields[i].Pair? && fields[j].Pair? ==>
               fields[i].vendor != fields[j].vendor
    ensures forall i :: 0 <= i < |fields| && fields[i].Pair? ==>
              fields[i].vendor in Meant(fields, parse) &&
                Some(Meant(fields, parse)[fields[i].vendor]) == parse(fields[i].amount)
    ensures forall v :: v in Meant(fields, parse) ==>
              exists i :: 0 <= i < |fields| && fields[i].Pair? && fields[i].vendor == v
  {
    if fields != [] { MeantIs(fields[..|fields| - 1], parse); }
  }

  lemma NoComma<Amount>(f: Field, parse: string -> Option<Amount>)
    requires Printable(f, parse)
    ensures ',' !in Print(f)
  {
    if f.Pair? {
      BlanksHaveNo(f.left);
      BlanksHaveNo(f.beforeColon);
      BlanksHaveNo(f.afterColon);
      BlanksHaveNo(f.right);
    } else {
      BlanksHaveNo(f.pad);
    }
  }

  lemma BlanksHaveNo(pad: string)
    requires Over(pad, IsBlank)
    ensures ',' !in pad && ':' !in pad
  {
  }

  lemma {:induction false} ReadAll<Amount>(fields: seq<Field>, parse: string -> Option<Amount>)
    requires forall i :: 0 <= i < |fields| ==> Printable(fields[i], parse)
    ensures Totals(Kept(PrintAll(fields)), parse) == Ok(Meant(fields, parse))
  {
    if fields == [] {
      assert PrintAll(fields) == [];
    } else {
      var init, f := fields[..|fields| - 1], fields[|fields| - 1];
      ReadAll(init, parse);
      PrintLast(fields);
      KeptLast(PrintAll(init), Print(f));
      ReadLast(Kept(PrintAll(init)), Meant(init, parse), f, parse);
    }
  }

  lemma PrintLast(fields: seq<Field>)
    requires fields != []
    ensures PrintAll(fields) == PrintAll(fields[..|fields| - 1]) + [Print(fields[|fields| - 1])]
  {
  }

  lemma ReadLast<Amount>(pairs: seq<string>, m: map<string, Amount>, f: Field, parse: string -> Option<Amount>)
    requires Totals(pairs, parse) == Ok(m) && Printable(f, parse)
    ensures Totals(pairs + (if Stripped(Print(f)) == "" then [] else [Stripped(Print(f))]), parse) ==
            Ok(if f.Pair? && parse(f.amount).Some? then m[f.vendor := parse(f.amount).value] else m)
  {
    ReadOne(f, parse);
    TotalsLast(pairs, if f.Pair? then [Core(f)] else [], parse);
  }

  lemma TotalsLast<Amount>(pairs: seq<string>, last: seq<string>, parse: string -> Option<Amount>)
    requires Totals(pairs, parse).Ok? && |last| <= 1 && (last != [] ==> Entry(last[0], parse).Ok?)
    ensures Totals(pairs + last, parse) ==
            if last == [] then Totals(pairs, parse)
            else var e := Entry(last[0], parse).value; Ok(Totals(pairs, parse).value[e.0 := e.1])
  {
    var all := pairs + last;
    if last == [] {
      assert all == pairs;
    } else {
      assert all[..|all| - 1] == pairs;
    }
  }

  lemma {:induction false} KeptLast(parts: seq<string>, last: string)
    ensures Kept(parts + [last]) == Kept(parts) + if Stripped(last) == "" then [] else [Stripped(last)]
  {
    if parts == [] {
      assert parts + [last] == [last] && [last][1..] == [];
    } else {
      assert (parts + [last])[1..] == parts[1..] + [last];
      KeptLast(parts[1..], last);
    }
  }

  lemma ReadOne<Amount>(f: Field, parse: string -> Option<Amount>)
    requires Printable(f, parse)
    ensures f.Blanks? ==> Stripped(Print(f)) == ""
    ensures f.Pair? ==> Core(f) != "" && Stripped(Print(f)) == Core(f)
                        && Entry(Core(f), parse) == Ok((f.vendor, parse(f.amount).value))
  {
    if f.Blanks? {
      TrimPadded(f.pad, "", "", IsBlank);
      assert f.pad + "" + "" == f.pad;
    } else {
      TrimPadded(f.left, Core(f), f.right, IsBlank);
      CutCore(f, parse);
    }
  }

  lemma CutCore<Amount>(f: Field, parse: string -> Option<Amount>)
    requires Printable(f, parse) && f.Pair?
    ensures Entry(Core(f), parse) == Ok((f.vendor, parse(f.amount).value))
  {
    EntryOfPair(f, parse);
  }

  // ----- Bad pairs -----

  /** The first pair that cannot be read is the answer, whatever follows it. */
  lemma FirstBadPairIsTheAnswer<Amount>(good: seq<Field>, bad: string, rest: seq<string>,
                                        parse: string -> Option<Amount>)
    requires forall i :: 0 <= i < |good| ==> Printable(good[i], parse)
    requires ',' !in bad && Stripped(bad) == bad != "" && !Entry(bad, parse).Ok?
    requires forall i :: 0 <= i < |rest| ==> ',' !in rest[i]
    ensures Totals(Kept(Split(Join(PrintAll(good) + [bad] + rest, ','), ',')), parse) ==
            match Entry(bad, parse)
            case Ok(_) => Ok(map[])
            case BadEntry(p) => BadEntry(p)
            case BadAmount(v, a) => BadAmount(v, a)
  {
    var parts := PrintAll(good) + [bad] + rest;
    PartsAreCommaFree(good, bad, rest, parse);
    SplitJoin(parts, ',');
    assert Kept(parts) == Kept(PrintAll(good)) + [bad] + Kept(rest) by {
      KeptConcat(PrintAll(good) + [bad], rest);
      KeptLast(PrintAll(good), bad);
    }
    ReadAll(good, parse);
    StopsAt(Kept(PrintAll(good)), bad, Kept(rest), parse);
  }

  lemma PartsAreCommaFree<Amount>(good: seq<Field>, bad: string, rest: seq<string>, parse: string -> Option<Amount>)
    requires forall i :: 0 <= i < |good| ==> Printable(good[i], parse)
    requires ',' !in bad && forall i :: 0 <= i < |rest| ==> ',' !in rest[i]
    ensures forall i :: 0 <= i < |PrintAll(good) + [bad] + rest| ==> ',' !in (PrintAll(good) + [bad] + rest)[i]
  {
    var parts := PrintAll(good) + [bad] + rest;
    forall i | 0 <= i < |parts|
      ensures ',' !in parts[i]
    {
      if i < |good| { NoComma(good[i], parse); }
    }
  }

  lemma StopsAt<Amount>(read: seq<string>, bad: string, rest: seq<string>, parse: string -> Option<Amount>)
    requires Totals(read, parse).Ok? && !Entry(bad, parse).Ok?
    ensures Totals(read + [bad] + rest, parse) ==
            match Entry(bad, parse)
            case Ok(_) => Ok(map[])
            case BadEntry(p) => BadEntry(p)
            case BadAmount(v, a) => BadAmount(v, a)
  {
    var pairs := read + [bad] + rest;
    assert pairs[..|read| + 1] == read + [bad] && (read + [bad])[..|read|] == read;
    BadStays(pairs, parse, |read| + 1);
  }

  lemma {:induction false} KeptConcat(a: seq<string>, b: seq<string>)
    ensures Kept(a + b) == Kept(a) + Kept(b)
  {
    if a == [] {
      assert a + b == b;
    } else {
      assert (a + b)[1..] == a[1..] + b;
      KeptConcat(a[1..], b);
    }
  }

  /** A pair is cut at its last colon, and both sides are stripped of their blanks. */
  ghost predicate Tidy(f: Field)
  {
    && f.Pair? && Over(f.beforeColon, IsBlank) && Over(f.afterColon, IsBlank)
    && f.vendor != "" && Trimmed(f.vendor, IsBlank) && Trimmed(f.amount, IsBlank) && ':' !in f.amount
  }

  lemma EntryOfPair<Amount>(f: Field, parse: string -> Option<Amount>)
    requires Tidy(f)
    ensures Entry(Core(f), parse) ==
            if parse(f.amount).None? then BadAmount(f.vendor, f.amount) else Ok((f.vendor, parse(f.amount).value))
  {
    var head, tail := f.vendor + f.beforeColon, f.afterColon + f.amount;
    BlanksHaveNo(f.afterColon);
    LastColon(head, tail);
    StripRight(f.vendor, f.beforeColon);
    StripLeft(f.afterColon, f.amount);
    EntryCut(Core(f), head, tail, parse);
  }

  lemma EntryCut<Amount>(core: string, head: string, tail: string, parse: string -> Option<Amount>)
    requires LastIndex(core, ':') == |head| && core[..|head|] == head && core[|head| + 1..] == tail
    requires Stripped(head) != ""
    ensures Entry(core, parse) ==
            if parse(Stripped(tail)).None? then BadAmount(Stripped(head), Stripped(tail))
            else Ok((Stripped(head), parse(Stripped(tail)).value))
  {
  }

  lemma StripRight(s: string, pad: string)
    requires Trimmed(s, IsBlank) && Over(pad, IsBlank)
    ensures Stripped(s + pad) == s
  {
    TrimPadded("", s, pad, IsBlank);
    assert "" + s + pad == s + pad;
  }

  lemma StripLeft(pad: string, s: string)
    requires Trimmed(s, IsBlank) && Over(pad, IsBlank)
    ensures Stripped(pad + s) == s
  {
    TrimPadded(pad, s, "", IsBlank);
    assert pad + s + "" == pad + s;
  }

  /** What cannot be read: a pair without a colon, and one without a vendor. */
  lemma WhatIsBad<Amount>(pair: string, pad: string, tail: string, parse: string -> Option<Amount>)
    ensures ':' !in pair ==> Entry(pair, parse) == BadEntry(pair)
    ensures Over(pad, IsBlank) && ':' !in tail ==> Entry(pad + ":" + tail, parse) == BadEntry(pad + ":" + tail)
  {
    if Over(pad, IsBlank) && ':' !in tail {
      LastColon(pad, tail);
      StripLeft(pad, "");
      assert pad + "" == pad;
    }
  }

  lemma LastColon(head: string, tail: string)
    requires ':' !in tail
    ensures var all := head + ":" + tail;
            LastIndex(all, ':') == |head| && all[..|head|] == head && all[|head| + 1..] == tail
  {
    var all := head + ":" + tail;
    assert all[|head|] == ':' && forall j :: |head| < j < |all| ==> all[j] == tail[j - |head| - 1];
    LastIndexIs(all, ':', |head|);
  }
}
