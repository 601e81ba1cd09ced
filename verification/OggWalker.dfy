/**
 The Ogg page walker behind the Opus duration (common/audio.go). It reads a
 27-byte page header, resynchronises byte by byte when the capture pattern is
 missing, and otherwise jumps over the page. Pages are laid out as section 6 of
 RFC 3533 describes.
 */
module OggWalker {
  import opened Basics

  const HEADER := 27
  const CAPTURE: seq<byte> := [0x4F, 0x67, 0x67, 0x53]   // "OggS"
  const TWO63 := 0x8000_0000_0000_0000
  const TWO64 := 0x1_0000_0000_0000_0000

  function SumOf(bytes: seq<byte>): nat
  {
    if bytes == [] then 0 else SumOf(bytes[..|bytes| - 1]) + bytes[|bytes| - 1]
  }

  function LittleEndian(bytes: seq<byte>): nat
  {
    if bytes == [] then 0 else bytes[0] + 256 * LittleEndian(bytes[1..])
  }

  /** The conversion of an unsigned 64-bit value to a signed one. */
  function Signed(v: nat): int
  {
    if v >= TWO63 then v - TWO64 else v
  }

  predicate Captures(data: seq<byte>, pos: nat)
  {
    pos + 4 <= |data| && data[pos..pos + 4] == CAPTURE
  }

  function GranuleAt(data: seq<byte>, pos: nat): int
    requires pos + HEADER <= |data|
  {
    Signed(LittleEndian(data[pos + 6..pos + 14]))
  }

  function Max(a: int, b: int): int
  {
    if b > a then b else a
  }

  datatype Trace = Trace(best: int, visited: seq<nat>)

  /** Where the walk accepts a header from `pos` on, and the largest granule position it sees. */
  function Walk(data: seq<byte>, pos: nat, best: int): Trace
    decreases |data| - pos
  {
    if pos + HEADER > |data| then Trace(best, [])
    else if !Captures(data, pos) then Walk(data, pos + 1, best)
    else
      var best': int := Max(best, GranuleAt(data, pos));
      var table: int := pos + HEADER + data[pos + 26];
      var rest: Trace := if table > |data| then Trace(best', [])
                  else Walk(data, table + SumOf(data[pos + HEADER..table]), best');
      rest.(visited := [pos] + rest.visited)
  }

  /** Each round moves the position by one byte or by at least a whole header. */
  method GetOpusDuration(data: seq<byte>) returns (duration: real)
    ensures duration == Walk(data, 0, 0).best as real / 48000.0
  {
    var totalGranulePos := 0;
    var pos: nat := 0;
    while true
      invariant Walk(data, pos, totalGranulePos).best == Walk(data, 0, 0).best
      decreases |data| - pos
    {
      if pos >= |data| { break; }              // EOF
      var n := if pos + HEADER <= |data| then HEADER else |data| - pos;
      if n < HEADER { break; }
      var captured, granulePos, numSegments := ReadHeader(data, pos);
      OneRound(data, pos, totalGranulePos);
      pos := pos + n;
      if !captured {
        pos := pos - 26;
        continue;
      }
      if granulePos > totalGranulePos {
        totalGranulePos := granulePos;
      }
      if pos + numSegments > |data| { break; } // short segment table
      var pageSize := SegmentTotal(data[pos..pos + numSegments]);
      pos := pos + numSegments + pageSize;
    }
    duration := totalGranulePos as real / 48000.0;
  }

  /** One round of the walk: a byte on, the end at a short table, or the next page. */
  lemma OneRound(data: seq<byte>, pos: nat, best: int)
    requires pos + HEADER <= |data|
    ensures !Captures(data, pos) ==> Walk(data, pos, best).best == Walk(data, pos + 1, best).best
    ensures Captures(data, pos) ==>
              var best', table := Max(best, GranuleAt(data, pos)), pos + HEADER + data[pos + 26];
              Walk(data, pos, best).best ==
              if table > |data| then best' else Walk(data, table + SumOf(data[pos + HEADER..table]), best').best
  {
  }

  method ReadHeader(data: seq<byte>, pos: nat) returns (captured: bool, granulePos: int, numSegments: nat)
    requires pos + HEADER <= |data|
    ensures captured == Captures(data, pos) && granulePos == GranuleAt(data, pos) && numSegments == data[pos + 26]
  {
    var buf := data[pos..pos + HEADER];
    Subslice(data, pos, HEADER, 0, 4);
    Subslice(data, pos, HEADER, 6, 14);
    return buf[0..4] == CAPTURE, Signed(LittleEndian(buf[6..14])), buf[26];
  }

  lemma Subslice<T>(data: seq<T>, pos: nat, n: nat, i: nat, j: nat)
    requires pos + n <= |data| && i <= j <= n
    ensures data[pos..pos + n][i..j] == data[pos + i..pos + j]
  {
    var part, whole := data[pos..pos + n][i..j], data[pos + i..pos + j];
    assert |part| == |whole| && forall k :: 0 <= k < j - i ==> part[k] == whole[k];
  }

  method SegmentTotal(segmentTable: seq<byte>) returns (pageSize: nat)
    ensures pageSize == SumOf(segmentTable)
  {
    pageSize := 0;
    for i := 0 to |segmentTable|
      invariant pageSize == SumOf(segmentTable[..i])
    {
      assert segmentTable[..i + 1][..i] == segmentTable[..i];
      pageSize := pageSize + segmentTable[i];
    }
    assert segmentTable[..|segmentTable|] == segmentTable;
  }

  // ----- Pages -----

  /** `rest` is the serial number, the page sequence number and the checksum. */
  datatype Page = Page(version: byte, flags: byte, granule: int, rest: seq<byte>, table: seq<byte>, body: seq<byte>)

  predicate WellFormed(p: Page)
  {
    && -TWO63 <= p.granule < TWO63
    && |p.rest| == 12 && |p.table| < 256 && |p.body| == SumOf(p.table)
  }

  function Bytes(v: nat, n: nat): (bytes: seq<byte>)
    ensures |bytes| == n
  {
    if n == 0 then [] else [v % 256] + Bytes(v / 256, n - 1)
  }

  function Unsigned(g: int): nat
    requires -TWO63 <= g < TWO63
  {
    if g < 0 then g + TWO64 else g
  }

  function Header(p: Page): (h: seq<byte>)
    requires WellFormed(p)
    ensures |h| == HEADER
  {
    CAPTURE + [p.version, p.flags] + Bytes(Unsigned(p.granule), 8) + p.rest + [|p.table|]
  }

  function Size(p: Page): nat
  {
    HEADER + |p.table| + SumOf(p.table)
  }

  function Encode(p: Page): (bytes: seq<byte>)
    requires WellFormed(p)
    ensures |bytes| == Size(p)
  {
    Header(p) + p.table + p.body
  }

  function EncodeAll(pages: seq<Page>): seq<byte>
    requires forall i :: 0 <= i < |pages| ==> WellFormed(pages[i])
  {
    if pages == [] then [] else Encode(pages[0]) + EncodeAll(pages[1..])
  }

  function Largest(pages: seq<Page>, best: int): int
  {
    if pages == [] then best else Largest(pages[1..], Max(best, pages[0].granule))
  }

  /** The offsets at which the pages start. */
  function Starts(pages: seq<Page>, at: nat): seq<nat>
  {
    if pages == [] then [] else [at] + Starts(pages[1..], at + Size(pages[0]))
  }

  /**
   Over junk that never shows the capture pattern, any number of well-formed
   pages and a tail too short for a header, the walk stops at exactly the page
   starts and finds the largest granule position, or zero.
   */
  lemma WalksThePages(junk: seq<byte>, pages: seq<Page>, tail: seq<byte>)
    requires forall i :: 0 <= i < |pages| ==> WellFormed(pages[i])
    requires |tail| < HEADER
    requires forall i :: 0 <= i < |junk| ==> !Captures(junk + EncodeAll(pages) + tail, i)
    ensures Walk(junk + EncodeAll(pages) + tail, 0, 0) == Trace(Largest(pages, 0), Starts(pages, |junk|))
  {
    LaidOut(junk, pages, tail);
    WalksData(junk + EncodeAll(pages) + tail, |junk|, pages);
  }

  /** A last page that is cut off anywhere behind its header counts like a whole one. */
  lemma CutPageCounts(junk: seq<byte>, pages: seq<Page>, p: Page, n: nat)
    requires forall i :: 0 <= i < |pages| ==> WellFormed(pages[i])
    requires WellFormed(p) && HEADER <= n <= Size(p)
    requires forall i :: 0 <= i < |junk| ==> !Captures(junk + EncodeAll(pages) + Encode(p)[..n], i)
    ensures Walk(junk + EncodeAll(pages) + Encode(p)[..n], 0, 0) ==
            Trace(Largest(pages + [p], 0), Starts(pages + [p], |junk|))
  {
    LaidOutCut(junk, pages, p, n);
    WalksData(junk + EncodeAll(pages) + Encode(p)[..n], |junk|, pages + [p]);
  }

  lemma WalksData(data: seq<byte>, start: nat, pages: seq<Page>)
    requires start <= |data| && PagesAt(data, start, pages)
    requires forall i :: 0 <= i < start ==> !Captures(data, i)
    ensures Walk(data, 0, 0) == Trace(Largest(pages, 0), Starts(pages, start))
  {
    SkipsJunk(data, 0, start, 0);
    WalksFrom(data, start, pages, 0);
  }

  /** Largest is the maximum of zero and the granule positions. */
  lemma {:induction false} LargestIsMaximum(pages: seq<Page>, best: int)
    ensures Largest(pages, best) >= best
    ensures forall i :: 0 <= i < |pages| ==> pages[i].granule <= Largest(pages, best)
    ensures Largest(pages, best) == best || exists i :: 0 <= i < |pages| && pages[i].granule == Largest(pages, best)
  {
    if pages != [] {
      LargestIsMaximum(pages[1..], Max(best, pages[0].granule));
      var largest := Largest(pages, best);
      if i :| 0 <= i < |pages[1..]| && pages[1..][i].granule == largest {
        assert pages[i + 1].granule == largest;
      }
    }
  }

  lemma {:induction false} SkipsJunk(data: seq<byte>, start: nat, end: nat, best: int)
    requires start <= end <= |data|
    requires forall i :: start <= i < end ==> !Captures(data, i)
    ensures Walk(data, start, best) == Walk(data, end, best)
    decreases end - start
  {
    if start < end { SkipsJunk(data, start + 1, end, best); }
  }

  /** The bytes of `data` at `pos` read as the page's header and segment table, and the page fits. */
  ghost predicate PageAt(data: seq<byte>, pos: nat, p: Page)
  {
    && pos + Size(p) <= |data| && Captures(data, pos)
    && GranuleAt(data, pos) == p.granule
    && data[pos + 26] == |p.table|
    && data[pos + HEADER..pos + HEADER + |p.table|] == p.table
  }

  /** The same for a page that is cut off behind its header. */
  ghost predicate CutPageAt(data: seq<byte>, pos: nat, p: Page)
  {
    && pos + HEADER <= |data| <= pos + Size(p) && Captures(data, pos)
    && GranuleAt(data, pos) == p.granule
    && data[pos + 26] == |p.table|
    && (pos + HEADER + |p.table| <= |data| ==> data[pos + HEADER..pos + HEADER + |p.table|] == p.table)
  }

  /** The pages follow each other to the end of the data; the last one may be cut off. */
  ghost predicate PagesAt(data: seq<byte>, pos: nat, pages: seq<Page>)
    decreases |pages|
  {
    if pages == [] then pos + HEADER > |data|
    else
      || (PageAt(data, pos, pages[0]) && PagesAt(data, pos + Size(pages[0]), pages[1..]))
      || (|pages| == 1 && CutPageAt(data, pos, pages[0]))
  }

  lemma {:induction false} WalksFrom(data: seq<byte>, pos: nat, pages: seq<Page>, best: int)
    requires PagesAt(data, pos, pages)
    ensures Walk(data, pos, best) == Trace(Largest(pages, best), Starts(pages, pos))
    decreases |pages|
  {
    if pages != [] {
      var p := pages[0];
      if |pages| == 1 && CutPageAt(data, pos, p) {
        EndsWith(data, pos, p, best);
        assert pages == [p] && [p][1..] == [];
      } else {
        assert data[pos + HEADER..pos + HEADER + data[pos + 26]] == p.table;
        WalksFrom(data, pos + Size(p), pages[1..], Max(best, p.granule));
      }
    }
  }

  lemma EndsWith(data: seq<byte>, pos: nat, p: Page, best: int)
    requires CutPageAt(data, pos, p)
    ensures Walk(data, pos, best) == Trace(Max(best, p.granule), [pos])
  {
    assert [pos] + [] == [pos];
  }

  lemma {:induction false} LaidOut(before: seq<byte>, pages: seq<Page>, tail: seq<byte>)
    requires forall i :: 0 <= i < |pages| ==> WellFormed(pages[i])
    requires |tail| < HEADER
    ensures PagesAt(before + EncodeAll(pages) + tail, |before|, pages)
    decreases |pages|
  {
    if pages != [] {
      var p, rest := pages[0], EncodeAll(pages[1..]);
      LaidOut(before + Encode(p), pages[1..], tail);
      OnePageMore(before, pages, rest, tail);
    }
  }

  lemma OnePageMore(before: seq<byte>, pages: seq<Page>, rest: seq<byte>, tail: seq<byte>)
    requires pages != [] && WellFormed(pages[0])
    requires PagesAt(before + Encode(pages[0]) + rest + tail, |before + Encode(pages[0])|, pages[1..])
    ensures PagesAt(before + (Encode(pages[0]) + rest) + tail, |before|, pages)
  {
    var p := pages[0];
    var data := before + Encode(p) + rest + tail;
    assert data == before + (Encode(p) + rest) + tail == before + Encode(p) + (rest + tail) by {
      SameBytes(before, Encode(p), rest, tail);
    }
    assert PageAt(data, |before|, p) by { ReadsPage(before, p, rest + tail); }
    PageThenPages(data, |before|, pages);
  }

  lemma PageThenPages(data: seq<byte>, pos: nat, pages: seq<Page>)
    requires pages != [] && PageAt(data, pos, pages[0]) && PagesAt(data, pos + Size(pages[0]), pages[1..])
    ensures PagesAt(data, pos, pages)
  {
  }

  lemma {:induction false} LaidOutCut(before: seq<byte>, pages: seq<Page>, p: Page, n: nat)
    requires forall i :: 0 <= i < |pages| ==> WellFormed(pages[i])
    requires WellFormed(p) && HEADER <= n <= Size(p)
    ensures PagesAt(before + EncodeAll(pages) + Encode(p)[..n], |before|, pages + [p])
    decreases |pages|
  {
    if pages == [] {
      CutIsRead(before, p, n);
      assert before + EncodeAll(pages) == before && pages + [p] == [p];
    } else {
      var rest := EncodeAll(pages[1..]);
      LaidOutCut(before + Encode(pages[0]), pages[1..], p, n);
      assert (pages + [p])[1..] == pages[1..] + [p];
      OnePageMore(before, pages + [p], rest, Encode(p)[..n]);
    }
  }

  lemma CutIsRead(before: seq<byte>, p: Page, n: nat)
    requires WellFormed(p) && HEADER <= n <= Size(p)
    ensures CutPageAt(before + Encode(p)[..n], |before|, p)
  {
    var part := Encode(p)[..n];
    PartFields(p, n);
    assert before + part == before + part + [];
    SliceOf(before, part, [], 0, 4);
    SliceOf(before, part, [], 6, 14);
    if HEADER + |p.table| <= n { SliceOf(before, part, [], HEADER, HEADER + |p.table|); }
    GranuleRoundTrip(p.granule);
  }

  lemma PartFields(p: Page, n: nat)
    requires WellFormed(p) && HEADER <= n <= Size(p)
    ensures var part := Encode(p)[..n];
            && part[0..4] == CAPTURE && part[6..14] == Bytes(Unsigned(p.granule), 8) && part[26] == |p.table|
            && (HEADER + |p.table| <= n ==> part[HEADER..HEADER + |p.table|] == p.table)
  {
    PageFields(p);
    SliceOfPrefix(Encode(p), n, 0, 4);
    SliceOfPrefix(Encode(p), n, 6, 14);
    if HEADER + |p.table| <= n { SliceOfPrefix(Encode(p), n, HEADER, HEADER + |p.table|); }
  }

  lemma SliceOfPrefix<T>(s: seq<T>, n: nat, i: nat, j: nat)
    requires i <= j <= n <= |s|
    ensures s[..n][i..j] == s[i..j]
  {
  }

  lemma SameBytes(a: seq<byte>, b: seq<byte>, c: seq<byte>, d: seq<byte>)
    ensures a + (b + c) + d == a + b + (c + d) == a + b + c + d
  {
  }

  lemma ReadsPage(before: seq<byte>, p: Page, after: seq<byte>)
    requires WellFormed(p)
    ensures PageAt(before + Encode(p) + after, |before|, p)
  {
    var data, pos, page := before + Encode(p) + after, |before|, Encode(p);
    PageFields(p);
    SliceOf(before, page, after, 0, 4);
    SliceOf(before, page, after, 6, 14);
    SliceOf(before, page, after, HEADER, HEADER + |p.table|);
    assert data[pos + 26] == page[26];
    GranuleRoundTrip(p.granule);
  }

  lemma PageFields(p: Page)
    requires WellFormed(p)
    ensures var page := Encode(p);
            && page[0..4] == CAPTURE && page[6..14] == Bytes(Unsigned(p.granule), 8)
            && page[26] == |p.table| && page[HEADER..HEADER + |p.table|] == p.table
  {
    var page, header := Encode(p), Header(p);
    assert header[0..4] == CAPTURE && header[6..14] == Bytes(Unsigned(p.granule), 8);
    assert page[0..4] == header[0..4] && page[6..14] == header[6..14];
  }

  lemma SliceOf<T>(a: seq<T>, b: seq<T>, c: seq<T>, i: nat, j: nat)
    requires i <= j <= |b|
    ensures (a + b + c)[|a| + i..|a| + j] == b[i..j]
  {
  }

  lemma GranuleRoundTrip(g: int)
    requires -TWO63 <= g < TWO63
    ensures Signed(LittleEndian(Bytes(Unsigned(g), 8))) == g
  {
    assert Power(8) == TWO64;
    BytesRoundTrip(Unsigned(g), 8);
  }

  function Power(n: nat): nat
  {
    if n == 0 then 1 else 256 * Power(n - 1)
  }

  lemma {:induction false} BytesRoundTrip(v: nat, n: nat)
    requires v < Power(n)
    ensures LittleEndian(Bytes(v, n)) == v
  {
    if n > 0 {
      BytesRoundTrip(v / 256, n - 1);
      assert Bytes(v, n)[1..] == Bytes(v / 256, n - 1);
    }
  }
}
