/**
 CPU lists: printing a set of cores as ranges, reading such lists back, sharing cores
 among ranks and devices among memory nodes, and splitting a list between a worker and
 its store.
 */
module CpuList {
  import opened Wrappers
  import opened Arithmetic

  // -------------------------------------------------------------------- sorted lists

  ghost predicate Increasing(s: seq<int>) {
    forall i, j :: 0 <= i < j < |s| ==> s[i] < s[j]
  }

  // A sorted list with one more element, unless it is there already.
  function Insert(s: seq<int>, x: int): seq<int> {
    if s == [] then [x]
    else
      var last := s[|s| - 1];
      if last < x then s + [x] else if last == x then s else Insert(s[..|s| - 1], x) + [last]
  }

  // The elements of a list in order, each once.
  function SortUnique(cores: seq<int>): seq<int> {
    if cores == [] then [] else Insert(SortUnique(cores[..|cores| - 1]), cores[|cores| - 1])
  }

  lemma {:induction false} InsertSorts(s: seq<int>, x: int)
    requires Increasing(s)
    ensures Increasing(Insert(s, x)) && forall y :: y in Insert(s, x) <==> y in s || y == x
  {
    if s != [] && s[|s| - 1] > x {
      var early, last := s[..|s| - 1], s[|s| - 1];
      InsertSorts(early, x);
      assert s == early + [last];
      var r := Insert(early, x);
      forall i, j | 0 <= i < j < |r + [last]| ensures (r + [last])[i] < (r + [last])[j] {
        if j == |r| {
          assert r[i] in r;
        }
      }
    }
  }

  lemma {:induction false} SortUniqueSorts(cores: seq<int>)
    ensures Increasing(SortUnique(cores)) && forall y :: y in SortUnique(cores) <==> y in cores
  {
    if cores != [] {
      var early, last := cores[..|cores| - 1], cores[|cores| - 1];
      SortUniqueSorts(early);
      InsertSorts(SortUnique(early), last);
      assert cores == early + [last];
    }
  }

  // ---------------------------------------------------------------------------- ranges

  datatype Range = Range(lo: nat, hi: nat)

  function Span(lo: int, hi: int): (s: seq<int>)
    requires lo <= hi
    ensures |s| == hi - lo + 1 && forall i :: 0 <= i < |s| ==> s[i] == lo + i
  {
    seq(hi - lo + 1, i requires 0 <= i => lo + i)
  }

  ghost predicate Ordered(ranges: seq<Range>) {
    forall i :: 0 <= i < |ranges| ==> ranges[i].lo <= ranges[i].hi
  }

  function Cores(ranges: seq<Range>): seq<int>
    requires Ordered(ranges)
  {
    if ranges == [] then []
    else
      var last := ranges[|ranges| - 1];
      Cores(ranges[..|ranges| - 1]) + Span(last.lo, last.hi)
  }

  // Ranges of which no two could be joined.
  ghost predicate Maximal(ranges: seq<Range>) {
    forall i :: 0 < i < |ranges| ==> ranges[i - 1].hi + 1 < ranges[i].lo
  }

  // The ranges found so far and the one that is still open make up the cores read.
  ghost predicate Pending(ranges: seq<Range>, s: nat, e: nat, read: seq<int>) {
    s <= e && Ordered(ranges) && Maximal(ranges + [Range(s, e)]) && Cores(ranges) + Span(s, e) == read
  }

  lemma OpenRangeGrows(ranges: seq<Range>, s: nat, e: nat, read: seq<int>)
    requires Pending(ranges, s, e, read)
    ensures Pending(ranges, s, e + 1, read + [e + 1])
  {
    assert Span(s, e + 1) == Span(s, e) + [e + 1];
    var a, b := ranges + [Range(s, e)], ranges + [Range(s, e + 1)];
    forall i | 0 < i < |b| ensures b[i - 1].hi + 1 < b[i].lo {
      assert a[i - 1].hi + 1 < a[i].lo;
    }
  }

  lemma OpenRangeCloses(ranges: seq<Range>, s: nat, e: nat, read: seq<int>)
    requires Pending(ranges, s, e, read)
    ensures Ordered(ranges + [Range(s, e)]) && Cores(ranges + [Range(s, e)]) == read
    ensures forall c :: e + 1 < c ==> Pending(ranges + [Range(s, e)], c, c, read + [c])
  {
    var all := ranges + [Range(s, e)];
    assert all[..|all| - 1] == ranges;
    forall c | e + 1 < c ensures Pending(all, c, c, read + [c]) {
      assert Span(c, c) == [c];
      var b := all + [Range(c, c)];
      forall i | 0 < i < |b| ensures b[i - 1].hi + 1 < b[i].lo {
        if i < |all| {
          assert all[i - 1].hi + 1 < all[i].lo;
        }
      }
    }
  }

  // Joins runs of consecutive cores of a sorted list.
  method Compress(cores: seq<int>) returns (ranges: seq<Range>)
    requires cores != [] && Increasing(cores) && forall c :: c in cores ==> 0 <= c
    ensures Ordered(ranges) && Maximal(ranges) && Cores(ranges) == cores
  {
    ranges := [];
    assert cores[0] in cores;
    var s: nat, e: nat := cores[0], cores[0];
    assert Span(s, e) == cores[..1];
    for i := 1 to |cores|
      invariant e == cores[i - 1] && Pending(ranges, s, e, cores[..i])
    {
      assert cores[i] in cores;
      var c: nat := cores[i];
      assert cores[..i + 1] == cores[..i] + [c];
      if c == e + 1 {
        OpenRangeGrows(ranges, s, e, cores[..i]);
        e := c;
      } else {
        assert cores[i - 1] < c;
        OpenRangeCloses(ranges, s, e, cores[..i]);
        ranges := ranges + [Range(s, e)];
        s, e := c, c;
      }
    }
    assert cores[..|cores|] == cores;
    OpenRangeCloses(ranges, s, e, cores);
    ranges := ranges + [Range(s, e)];
  }

  // --------------------------------------------------------------------------- numerals

  function Digit(d: nat): char
    requires d < 10
  {
    '0' + d as char
  }

  predicate IsDigit(c: char) { '0' <= c <= '9' }

  function Text(n: nat): string {
    if n < 10 then [Digit(n)] else Text(n / 10) + [Digit(n % 10)]
  }

  function DigitOf(c: char): nat
    requires IsDigit(c)
  {
    (c - '0') as nat
  }

  // A numeral, possibly with single underscores between its digits.
  function Value(text: string): Option<nat> {
    if text == [] || !IsDigit(text[|text| - 1]) then None
    else
      var n := |text| - 1;
      var digit := DigitOf(text[n]);
      if n == 0 then Some(digit)
      else match Value(if text[n - 1] == '_' then text[..n - 1] else text[..n])
           case Some(v) => Some(10 * v + digit)
           case None => None
  }

  // An integer: a numeral with an optional sign, blanks around it left out.
  function IntValue(text: string): Option<int> {
    var t := Strip(text);
    if t != [] && t[0] == '-' then Signed(-1, Value(t[1..]))
    else if t != [] && t[0] == '+' then Signed(1, Value(t[1..]))
    else Signed(1, Value(t))
  }

  function Signed(sign: int, v: Option<nat>): Option<int> {
    if v.None? then None else var i: int := sign * v.value; Some(i)
  }

  lemma {:induction false} TextIsValue(n: nat)
    ensures Value(Text(n)) == Some(n) && forall c :: c in Text(n) ==> IsDigit(c)
  {
    if n >= 10 {
      TextIsValue(n / 10);
      assert Text(n)[..|Text(n)| - 1] == Text(n / 10);
    }
  }

  // ---------------------------------------------------------------------- text pieces

  function Join(parts: seq<string>): string {
    if parts == [] then [] else if |parts| == 1 then parts[0] else parts[0] + [','] + Join(parts[1..])
  }

  function Split(text: string): (parts: seq<string>)
    ensures parts != []
  {
    if text == [] then [[]]
    else
      var rest := Split(text[1..]);
      if text[0] == ',' then [[]] + rest else [[text[0]] + rest[0]] + rest[1..]
  }

  lemma {:induction false} SplitPrefix(part: string, rest: string)
    requires ',' !in part
    ensures Split(part) == [part]
    ensures Split(part + [','] + rest) == [part] + Split(rest)
  {
    if part == [] {
      assert part + [','] + rest == [','] + rest;
    } else {
      SplitPrefix(part[1..], rest);
      assert [part[0]] + part[1..] == part;
      assert (part + [','] + rest)[1..] == part[1..] + [','] + rest;
    }
  }

  lemma {:induction false} SplitJoins(parts: seq<string>)
    requires parts != [] && forall p :: p in parts ==> ',' !in p
    ensures Split(Join(parts)) == parts
  {
    if |parts| == 1 {
      SplitPrefix(parts[0], []);
    } else {
      SplitJoins(parts[1..]);
      SplitPrefix(parts[0], Join(parts[1..]));
    }
  }

  predicate IsSpace(c: char) { c == ' ' || '\U{9}' <= c <= '\U{d}' || '\U{1c}' <= c <= '\U{1f}' }

  function StripLeft(text: string): string {
    if text != [] && IsSpace(text[0]) then StripLeft(text[1..]) else text
  }

  function StripRight(text: string): string {
    if text != [] && IsSpace(text[|text| - 1]) then StripRight(text[..|text| - 1]) else text
  }

  function Strip(text: string): string { StripRight(StripLeft(text)) }

  // The text before and after the first dash.
  function DashAt(text: string): Option<nat> {
    if text == [] then None
    else if text[0] == '-' then Some(0)
    else match DashAt(text[1..]) case Some(i) => Some(i + 1) case None => None
  }

  lemma {:induction false} FirstDash(a: string, b: string)
    requires '-' !in a
    ensures DashAt(a) == None && DashAt(a + ['-'] + b) == Some(|a|)
  {
    if a == [] {
      assert a + ['-'] + b == ['-'] + b;
    } else {
      FirstDash(a[1..], b);
      assert (a + ['-'] + b)[1..] == a[1..] + ['-'] + b;
    }
  }

  lemma {:induction false} DashInside(text: string)
    ensures DashAt(text).Some? ==> DashAt(text).value < |text|
  {
    if text != [] && text[0] != '-' {
      DashInside(text[1..]);
    }
  }

  // The cores of one part: a number, or two numbers in any order around a dash.
  function PartCores(part: string): Option<seq<int>> {
    DashInside(part);
    match DashAt(part)
    case None => (match IntValue(part) case Some(n) => Some([n]) case None => None)
    case Some(i) =>
      match (IntValue(part[..i]), IntValue(part[i + 1..]))
      case (Some(a), Some(b)) => Some(if a <= b then Span(a, b) else Span(b, a))
      case _ => None
  }

  // The segments of a list, empty parts left out; None when a part cannot be read.
  function Segments(parts: seq<string>): Option<seq<seq<int>>> {
    if parts == [] then Some([])
    else
      var part := Strip(parts[|parts| - 1]);
      match Segments(parts[..|parts| - 1])
      case None => None
      case Some(early) =>
        if part == [] then Some(early)
        else match PartCores(part) case Some(seg) => Some(early + [seg]) case None => None
  }

  // --------------------------------------------------------------------------- printing

  function RangeText(r: Range): string {
    if r.lo == r.hi then Text(r.lo) else Text(r.lo) + ['-'] + Text(r.hi)
  }

  function RangeTexts(ranges: seq<Range>): (texts: seq<string>)
    ensures |texts| == |ranges|
  {
    seq(|ranges|, i requires 0 <= i < |ranges| => RangeText(ranges[i]))
  }

  method ToCpuList(cores: seq<int>) returns (text: Option<string>)
    requires forall c :: c in cores ==> 0 <= c
    ensures cores == [] <==> text == None
    ensures text.Some? ==> exists ranges :: ranges != [] && Ordered(ranges) && Maximal(ranges) &&
                             Cores(ranges) == SortUnique(cores) && text.value == Join(RangeTexts(ranges))
  {
    if cores == [] {
      return None;
    }
    SortUniqueSorts(cores);
    var first := cores[0];
    assert first in cores;
    assert first in SortUnique(cores);
    var ranges := Compress(SortUnique(cores));
    text := Some(Join(RangeTexts(ranges)));
    assert ranges != [];
  }

  lemma {:induction false} NothingToStrip(text: string)
    requires forall c :: c in text ==> !IsSpace(c)
    ensures Strip(text) == text
  {
  }

  lemma RangeIsRead(r: Range)
    requires r.lo <= r.hi
    ensures ',' !in RangeText(r) && RangeText(r) != [] && Strip(RangeText(r)) == RangeText(r)
    ensures PartCores(RangeText(r)) == Some(Span(r.lo, r.hi))
  {
    TextIsValue(r.lo);
    TextIsValue(r.hi);
    NothingToStrip(RangeText(r));
    NumeralIsRead(Text(r.lo));
    if r.lo != r.hi {
      DashIsRead(r.lo, r.hi, Text(r.lo), Text(r.hi));
    } else {
      FirstDash(Text(r.lo), []);
      assert Span(r.lo, r.hi) == [r.lo];
    }
  }

  lemma NumeralIsRead(text: string)
    requires forall c :: c in text ==> IsDigit(c)
    ensures IntValue(text) == Signed(1, Value(text))
  {
    NothingToStrip(text);
    assert text != [] ==> IsDigit(text[0]);
  }

  lemma DashIsRead(lo: nat, hi: nat, a: string, b: string)
    requires lo <= hi && Value(a) == Some(lo) && Value(b) == Some(hi)
    requires (forall c :: c in a ==> IsDigit(c)) && forall c :: c in b ==> IsDigit(c)
    ensures PartCores(a + ['-'] + b) == Some(Span(lo, hi))
  {
    var t := a + ['-'] + b;
    FirstDash(a, b);
    NumeralIsRead(a);
    NumeralIsRead(b);
    assert t[..|a|] == a && t[|a| + 1..] == b;
  }

  // A range may be given in either order.
  lemma ReversedIsRead(lo: nat, hi: nat)
    requires lo < hi
    ensures PartCores(Text(hi) + ['-'] + Text(lo)) == Some(Span(lo, hi))
  {
    var a, b := Text(hi), Text(lo);
    TextIsValue(hi);
    TextIsValue(lo);
    FirstDash(a, b);
    NumeralIsRead(a);
    NumeralIsRead(b);
    var t := a + ['-'] + b;
    assert t[..|a|] == a && t[|a| + 1..] == b;
  }

  // A sign in front of a numeral counts; so a part that starts with a dash is unreadable.
  lemma SignedIsRead(sign: char, digits: string)
    requires (sign == '-' || sign == '+') && digits != [] && forall c :: c in digits ==> IsDigit(c)
    ensures IntValue([sign] + digits) == Signed(if sign == '-' then -1 else 1, Value(digits))
  {
    var t := [sign] + digits;
    assert digits[|digits| - 1] in digits;
    SignStays(t);
    assert t[0] == sign && t[1..] == digits;
  }

  lemma DashFirstIsUnreadable(rest: string)
    ensures PartCores(['-'] + rest) == None
  {
    var t := ['-'] + rest;
    assert t[..0] == [];
    assert IntValue([]) == None;
  }

  lemma SignStays(t: string)
    requires |t| > 1 && !IsSpace(t[0]) && !IsSpace(t[|t| - 1])
    ensures Strip(t) == t
  {
  }

  function Appended(v: Option<nat>, c: char): Option<nat>
    requires IsDigit(c)
  {
    match v case Some(n) => Some(10 * n + DigitOf(c)) case None => None
  }

  // Reading one more digit, with or without an underscore before it.
  lemma DigitAppended(text: string, c: char, s: string)
    requires text != [] && text[|text| - 1] != '_' && IsDigit(c) && s == text + [c]
    ensures Value(s) == Appended(Value(text), c)
  {
    assert s[|s| - 1] == c && s[|s| - 2] == text[|text| - 1] && s[..|s| - 1] == text;
  }

  lemma DigitAfterUnderscore(text: string, c: char, s: string)
    requires text != [] && IsDigit(c) && s == text + ['_'] + [c]
    ensures Value(s) == Appended(Value(text), c)
  {
    assert s[|s| - 1] == c && s[|s| - 2] == '_' && s[..|s| - 2] == text;
  }

  // A single underscore between digits changes nothing.
  lemma {:induction false} UnderscoreIsSkipped(a: string, b: string)
    requires a != [] && b != [] && (forall c :: c in a ==> IsDigit(c)) && forall c :: c in b ==> IsDigit(c)
    ensures Value(a + ['_'] + b) == Value(a + b)
  {
    var n := |b| - 1;
    assert b == b[..n] + [b[n]] && IsDigit(b[n]) && a[|a| - 1] in a;
    if n == 0 {
      DigitAppended(a, b[0], a + b);
      DigitAfterUnderscore(a, b[0], a + ['_'] + b);
    } else {
      UnderscoreIsSkipped(a, b[..n]);
      assert b[n - 1] in b;
      DigitAppended(a + ['_'] + b[..n], b[n], a + ['_'] + b);
      DigitAppended(a + b[..n], b[n], a + b);
    }
  }

  // A list is unreadable exactly when one of its parts that is not blank is.
  lemma {:induction false} ListIsReadIff(parts: seq<string>)
    ensures Segments(parts).None? <==> exists i :: 0 <= i < |parts| && Strip(parts[i]) != [] && PartCores(Strip(parts[i])).None?
  {
    if parts != [] {
      var early := parts[..|parts| - 1];
      ListIsReadIff(early);
      assert forall i :: 0 <= i < |early| ==> early[i] == parts[i];
    }
  }

  function Flatten(segments: seq<seq<int>>): seq<int> {
    if segments == [] then [] else Flatten(segments[..|segments| - 1]) + segments[|segments| - 1]
  }

  function Spans(ranges: seq<Range>): (r: seq<seq<int>>)
    requires Ordered(ranges)
    ensures |r| == |ranges|
  {
    seq(|ranges|, i requires 0 <= i < |ranges| => Span(ranges[i].lo, ranges[i].hi))
  }

  lemma {:induction false} RangesAreRead(ranges: seq<Range>)
    requires Ordered(ranges)
    ensures Segments(RangeTexts(ranges)) == Some(Spans(ranges)) && Flatten(Spans(ranges)) == Cores(ranges)
  {
    if ranges != [] {
      var early, last := ranges[..|ranges| - 1], ranges[|ranges| - 1];
      RangesAreRead(early);
      OneMoreIsRead(early, last);
      assert ranges == early + [last];
    }
  }

  lemma OneMoreIsRead(early: seq<Range>, last: Range)
    requires Ordered(early) && last.lo <= last.hi
    requires Segments(RangeTexts(early)) == Some(Spans(early)) && Flatten(Spans(early)) == Cores(early)
    ensures Ordered(early + [last])
    ensures Segments(RangeTexts(early + [last])) == Some(Spans(early + [last])) && Flatten(Spans(early + [last])) == Cores(early + [last])
  {
    RangeIsRead(last);
    OneMoreRange(early, last);
    OneMorePart(RangeTexts(early), RangeText(last), Spans(early), Span(last.lo, last.hi));
  }

  lemma OneMoreRange(early: seq<Range>, last: Range)
    requires Ordered(early) && last.lo <= last.hi
    ensures RangeTexts(early + [last]) == RangeTexts(early) + [RangeText(last)]
    ensures Ordered(early + [last]) && Spans(early + [last]) == Spans(early) + [Span(last.lo, last.hi)]
    ensures Cores(early + [last]) == Cores(early) + Span(last.lo, last.hi)
  {
    assert (early + [last])[..|early|] == early;
  }

  lemma OneMorePart(parts: seq<string>, part: string, segments: seq<seq<int>>, seg: seq<int>)
    requires Segments(parts) == Some(segments) && Strip(part) == part && part != [] && PartCores(part) == Some(seg)
    ensures Segments(parts + [part]) == Some(segments + [seg])
    ensures Flatten(segments + [seg]) == Flatten(segments) + seg
  {
    assert (parts + [part])[..|parts|] == parts;
    assert (segments + [seg])[..|segments|] == segments;
  }

  // Reading a printed list gives back its ranges, and so its cores in order.
  lemma PrintedListIsRead(ranges: seq<Range>)
    requires ranges != [] && Ordered(ranges)
    ensures Segments(Split(Join(RangeTexts(ranges)))) == Some(Spans(ranges)) && Flatten(Spans(ranges)) == Cores(ranges)
  {
    forall p | p in RangeTexts(ranges) ensures ',' !in p {
      var i :| 0 <= i < |ranges| && p == RangeTexts(ranges)[i];
      RangeIsRead(ranges[i]);
    }
    SplitJoins(RangeTexts(ranges));
    RangesAreRead(ranges);
  }

  // ------------------------------------------------------------------ splitting a list

  function Middle(seg: seq<int>): (m: nat)
    requires seg != []
    ensures 0 < m <= |seg|
    ensures if |seg| == 1 then m == 1 else 2 * m <= |seg| <= 2 * m + 1
  {
    if |seg| / 2 == 0 then 1 else |seg| / 2
  }

  ghost predicate NoneEmpty(segments: seq<seq<int>>) { forall i :: 0 <= i < |segments| ==> segments[i] != [] }

  function WorkerPart(segments: seq<seq<int>>): seq<int>
    requires NoneEmpty(segments)
  {
    if segments == [] then []
    else
      var last := segments[|segments| - 1];
      WorkerPart(segments[..|segments| - 1]) + last[..Middle(last)]
  }

  function StorePart(segments: seq<seq<int>>): seq<int>
    requires NoneEmpty(segments)
  {
    if segments == [] then []
    else
      var last := segments[|segments| - 1];
      StorePart(segments[..|segments| - 1]) + last[Middle(last)..]
  }

  lemma {:induction false} SegmentsNonEmpty(parts: seq<string>)
    ensures Segments(parts).Some? ==> NoneEmpty(Segments(parts).value)
  {
    if parts != [] {
      SegmentsNonEmpty(parts[..|parts| - 1]);
    }
  }

  // Reads a list and splits every segment between the worker and the store; an unread
  // list gives nothing, an empty one falls back to the allowed cores.
  method SplitCores(text: Option<string>, allowed: seq<int>) returns (worker: seq<int>, store: seq<int>)
    ensures text.None? || text.value == [] ==> worker == store == []
    ensures text.Some? && text.value != [] ==>
              match Segments(Split(text.value))
              case None => worker == store == []
              case Some(segments) =>
                && NoneEmpty(segments)
                && (segments != [] ==> worker == WorkerPart(segments) && store == StorePart(segments))
                && (segments == [] ==> worker + store == allowed && |worker| == if allowed == [] then 0 else 1)
  {
    worker, store := [], [];
    if text.None? || text.value == [] {
      return;
    }
    var parts := Split(text.value);
    ghost var segments: seq<seq<int>> := [];
    for i := 0 to |parts|
      invariant Segments(parts[..i]) == Some(segments) && NoneEmpty(segments)
      invariant worker == WorkerPart(segments) && store == StorePart(segments)
    {
      SegmentsNext(parts, i);
      var part := Strip(parts[i]);
      if part == [] {
        continue;
      }
      var seg := PartCores(part);
      if seg.None? {
        Unreadable(parts, i + 1);
        return [], [];
      }
      PartsNext(segments, seg.value);
      worker := worker + seg.value[..Middle(seg.value)];
      store := store + seg.value[Middle(seg.value)..];
      segments := segments + [seg.value];
    }
    assert parts[..|parts|] == parts;
    if segments != [] {
      FirstGoesToWorker(segments);
    }
    if worker == [] && allowed != [] {
      worker, store := [allowed[0]], allowed[1..];
    }
  }

  lemma SegmentsNext(parts: seq<string>, i: nat)
    requires i < |parts|
    ensures Segments(parts[..i + 1]) ==
            match Segments(parts[..i])
            case None => None
            case Some(early) =>
              if Strip(parts[i]) == [] then Some(early)
              else match PartCores(Strip(parts[i])) case Some(seg) => Some(early + [seg]) case None => None
  {
    assert parts[..i + 1][..i] == parts[..i];
  }

  lemma PartsNext(segments: seq<seq<int>>, seg: seq<int>)
    requires NoneEmpty(segments) && seg != []
    ensures NoneEmpty(segments + [seg])
    ensures WorkerPart(segments + [seg]) == WorkerPart(segments) + seg[..Middle(seg)]
    ensures StorePart(segments + [seg]) == StorePart(segments) + seg[Middle(seg)..]
  {
    assert (segments + [seg])[..|segments|] == segments;
  }

  lemma {:induction false} Unreadable(parts: seq<string>, i: nat)
    requires i <= |parts| && Segments(parts[..i]).None?
    ensures Segments(parts).None?
    decreases |parts|
  {
    if i == |parts| {
      assert parts[..i] == parts;
    } else {
      assert parts[..|parts| - 1][..i] == parts[..i];
      Unreadable(parts[..|parts| - 1], i);
    }
  }

  lemma {:induction false} FirstGoesToWorker(segments: seq<seq<int>>)
    requires NoneEmpty(segments) && segments != []
    ensures WorkerPart(segments) != []
  {
  }

  // Every core of every segment goes to exactly one of the two.
  lemma {:induction false} SplitIsPermutation(segments: seq<seq<int>>)
    requires NoneEmpty(segments)
    ensures multiset(WorkerPart(segments)) + multiset(StorePart(segments)) == multiset(Flatten(segments))
    ensures |StorePart(segments)| <= |WorkerPart(segments)| + |segments|
  {
    if segments != [] {
      var early, last := segments[..|segments| - 1], segments[|segments| - 1];
      SplitIsPermutation(early);
      assert last == last[..Middle(last)] + last[Middle(last)..];
    }
  }

  // Splitting a printed set of cores: worker and store share no core, have all cores of
  // the set, and the worker has at least one.
  // The ranges of a set of cores do not overlap.
  lemma {:induction false} RangesApart(ranges: seq<Range>, r: nat, q: nat, c: int)
    requires Ordered(ranges) && Increasing(Cores(ranges)) && r < |ranges| && q < |ranges|
    requires ranges[r].lo <= c <= ranges[r].hi && ranges[q].lo <= c <= ranges[q].hi
    ensures r == q
  {
    var n := |ranges| - 1;
    if r < n && q < n {
      forall i, j | 0 <= i < j < |Cores(ranges[..n])| ensures Cores(ranges[..n])[i] < Cores(ranges[..n])[j] {
        assert Cores(ranges)[i] == Cores(ranges[..n])[i] && Cores(ranges)[j] == Cores(ranges[..n])[j];
      }
      RangesApart(ranges[..n], r, q, c);
    } else if r < n {
      BelowTheLast(ranges, r, c);
    } else if q < n {
      BelowTheLast(ranges, q, c);
    }
  }

  lemma BelowTheLast(ranges: seq<Range>, r: nat, c: int)
    requires Ordered(ranges) && Increasing(Cores(ranges)) && r < |ranges| - 1 && ranges[r].lo <= c <= ranges[r].hi
    ensures c < ranges[|ranges| - 1].lo
  {
    var n := |ranges| - 1;
    var k := InCores(ranges[..n], r, c);
    EarlierIsLess(Cores(ranges[..n]), Span(ranges[n].lo, ranges[n].hi), k);
  }

  lemma EarlierIsLess(early: seq<int>, last: seq<int>, k: nat)
    requires Increasing(early + last) && k < |early| && last != []
    ensures early[k] < last[0]
  {
    assert (early + last)[k] == early[k] && (early + last)[|early|] == last[0];
  }

  lemma {:induction false} InCores(ranges: seq<Range>, r: nat, c: int) returns (k: nat)
    requires Ordered(ranges) && r < |ranges| && ranges[r].lo <= c <= ranges[r].hi
    ensures k < |Cores(ranges)| && Cores(ranges)[k] == c
  {
    var n := |ranges| - 1;
    if r < n {
      k := InCores(ranges[..n], r, c);
    } else {
      k := |Cores(ranges[..n])| + (c - ranges[n].lo);
    }
  }

  // For a printed set, the worker has the first half of every range.
  lemma PrintedRangesAreHalved(ranges: seq<Range>, cores: seq<int>, r: nat, c: int)
    requires Ordered(ranges) && Cores(ranges) == cores && Increasing(cores)
    requires r < |ranges| && ranges[r].lo <= c <= ranges[r].hi
    ensures var segments := Segments(Split(Join(RangeTexts(ranges))));
            && segments.Some? && NoneEmpty(segments.value)
            && (c in WorkerPart(segments.value) <==> InFirstHalf(ranges[r], c))
  {
    PrintedListIsRead(ranges);
    WorkerHasFirstHalves(ranges, c);
    if c in WorkerPart(Spans(ranges)) {
      var q :| 0 <= q < |ranges| && ranges[q].lo <= c <= ranges[q].hi && InFirstHalf(ranges[q], c);
      RangesApart(ranges, r, q, c);
    }
  }

  // The cores of a range that go to the worker: the first half, and at least one.
  ghost predicate InFirstHalf(r: Range, c: int) {
    c == r.lo || 2 * (c - r.lo + 1) <= r.hi - r.lo + 1
  }

  lemma {:induction false} WorkerHasFirstHalves(ranges: seq<Range>, c: int)
    requires Ordered(ranges)
    ensures NoneEmpty(Spans(ranges))
    ensures c in WorkerPart(Spans(ranges)) <==>
            exists r :: 0 <= r < |ranges| && ranges[r].lo <= c <= ranges[r].hi && InFirstHalf(ranges[r], c)
  {
    if ranges != [] {
      var early, last := ranges[..|ranges| - 1], ranges[|ranges| - 1];
      WorkerHasFirstHalves(early, c);
      assert Spans(ranges)[..|ranges| - 1] == Spans(early);
      SpanFirstHalf(last, c);
      assert forall r :: 0 <= r < |early| ==> early[r] == ranges[r];
    }
  }

  lemma SpanFirstHalf(r: Range, c: int)
    requires r.lo <= r.hi
    ensures var seg := Span(r.lo, r.hi);
            c in seg[..Middle(seg)] <==> r.lo <= c <= r.hi && InFirstHalf(r, c)
  {
    var seg := Span(r.lo, r.hi);
    if r.lo <= c <= r.hi && c - r.lo < Middle(seg) {
      assert seg[..Middle(seg)][c - r.lo] == c;
    }
  }

  lemma PrintedListSplits(ranges: seq<Range>, cores: seq<int>)
    requires ranges != [] && Ordered(ranges) && Cores(ranges) == cores && Increasing(cores)
    ensures var segments := Segments(Split(Join(RangeTexts(ranges))));
            && segments.Some? && NoneEmpty(segments.value)
            && var worker, store := WorkerPart(segments.value), StorePart(segments.value);
               && worker != []
               && (forall c :: c in worker ==> c !in store)
               && (forall c :: c in cores <==> c in worker || c in store)
               && |worker| + |store| == |cores|
  {
    PrintedListIsRead(ranges);
    var segments := Spans(ranges);
    FirstGoesToWorker(segments);
    SplitIsPermutation(segments);
    var worker, store := WorkerPart(segments), StorePart(segments);
    assert |worker| + |store| == |multiset(worker) + multiset(store)| == |multiset(cores)|;
    forall c | c in worker ensures c !in store {
      OnlyOnce(cores, c);
      assert c in multiset(worker);
      assert c in store ==> c in multiset(store);
    }
    forall c ensures c in cores <==> c in worker || c in store {
      assert c in cores <==> c in multiset(cores);
      assert c in worker <==> c in multiset(worker);
      assert c in store <==> c in multiset(store);
    }
  }

  lemma {:induction false} OnlyOnce(cores: seq<int>, c: int)
    requires Increasing(cores)
    ensures multiset(cores)[c] <= 1
  {
    if cores != [] {
      var early, last := cores[..|cores| - 1], cores[|cores| - 1];
      OnlyOnce(early, c);
      assert cores == early + [last];
      if c == last {
        assert c !in early;
      }
    }
  }

  // ------------------------------------------------------------------ sharing a list

  // The start of a rank's slice, and how much it takes.
  function SliceStart(length: nat, total: nat, rank: nat): nat
    requires 0 < total
  {
    rank * (length / total) + if rank < length % total then rank else length % total
  }

  function SliceLength(length: nat, total: nat, rank: nat): nat
    requires 0 < total
  {
    length / total + if rank < length % total then 1 else 0
  }

  lemma SlicesFollow(length: nat, total: nat, rank: nat)
    requires 0 < total
    ensures SliceStart(length, total, rank + 1) == SliceStart(length, total, rank) + SliceLength(length, total, rank)
    ensures SliceStart(length, total, 0) == 0 && SliceStart(length, total, total) == length
  {
    var base := length / total;
    DivBounds(length, total);
    assert (rank + 1) * base == rank * base + base;
    assert 0 * base == 0;
  }

  lemma {:induction false} SlicesInside(length: nat, total: nat, rank: nat, upTo: nat)
    requires 0 < total && rank <= upTo
    ensures SliceStart(length, total, rank) <= SliceStart(length, total, upTo)
  {
    if rank < upTo {
      SlicesInside(length, total, rank, upTo - 1);
      SlicesFollow(length, total, upTo - 1);
    }
  }

  // The cores of one rank; None for a rank that does not exist or has no core.
  method SliceForRank(cores: seq<nat>, rank: int, total: int) returns (r: Option<seq<nat>>)
    ensures r.Some? <==> 0 <= rank < total && 0 < SliceLength(|cores|, total, rank)
    ensures r.Some? ==> SliceStart(|cores|, total, rank) <= SliceStart(|cores|, total, rank + 1) <= |cores|
    ensures r.Some? ==> r.value == cores[SliceStart(|cores|, total, rank)..SliceStart(|cores|, total, rank + 1)]
  {
    if total <= 0 || rank < 0 || rank >= total {
      return None;
    }
    var base, extra := |cores| / total, |cores| % total;
    var start := rank * base + if rank < extra then rank else extra;
    var length := base + if rank < extra then 1 else 0;
    SlicesFollow(|cores|, total, rank);
    SlicesInside(|cores|, total, rank + 1, total);
    if length == 0 {
      return None;
    }
    r := Some(cores[start..start + length]);
  }

  // The slices of the first n ranks, one after the other.
  function Slices(cores: seq<nat>, total: nat, n: nat): seq<nat>
    requires 0 < total && n <= total
  {
    if n == 0 then []
    else
      SlicesInside(|cores|, total, n - 1, n);
      SlicesInside(|cores|, total, n, total);
      SlicesFollow(|cores|, total, 0);
      Slices(cores, total, n - 1) + cores[SliceStart(|cores|, total, n - 1)..SliceStart(|cores|, total, n)]
  }

  // The slices of all ranks make up the whole list, and differ in length by at most one.
  lemma {:induction false} SlicesArePrefix(cores: seq<nat>, total: nat, n: nat)
    requires 0 < total && n <= total
    ensures SliceStart(|cores|, total, n) <= |cores| && Slices(cores, total, n) == cores[..SliceStart(|cores|, total, n)]
  {
    SlicesInside(|cores|, total, n, total);
    SlicesFollow(|cores|, total, 0);
    if n > 0 {
      SlicesArePrefix(cores, total, n - 1);
      SlicesInside(|cores|, total, n - 1, n);
    }
  }

  lemma SlicesShareAll(cores: seq<nat>, total: nat, r: nat, s: nat)
    requires 0 < total && r < total && s < total
    ensures Slices(cores, total, total) == cores
    ensures -1 <= SliceLength(|cores|, total, r) - SliceLength(|cores|, total, s) <= 1
    ensures r <= s ==> SliceLength(|cores|, total, s) <= SliceLength(|cores|, total, r)
  {
    SlicesArePrefix(cores, total, total);
    SlicesFollow(|cores|, total, 0);
  }

  // ----------------------------------------------------------------- memory nodes

  // The boundaries of the shares, one more than there are nodes.
  ghost predicate Boundaries(starts: seq<nat>, length: nat) {
    && 0 < |starts| && starts[0] == 0 && starts[|starts| - 1] == length
    && forall i, j :: 0 <= i < j < |starts| ==> starts[i] <= starts[j]
  }

  ghost predicate EvenShares(starts: seq<nat>, length: nat, nodes: nat)
    requires 0 < nodes
  {
    |starts| == nodes + 1 && forall i :: 0 <= i <= nodes ==> starts[i] == SliceStart(length, nodes, i)
  }

  // Where the share of every node starts, found by adding up the lengths.
  method ShareStarts(length: nat, nodes: nat) returns (starts: seq<nat>)
    requires 0 < nodes
    ensures Boundaries(starts, length) && EvenShares(starts, length, nodes)
  {
    SlicesFollow(length, nodes, 0);
    starts := [0];
    for i := 0 to nodes
      invariant |starts| == i + 1
      invariant forall j :: 0 <= j <= i ==> starts[j] == SliceStart(length, nodes, j)
    {
      SlicesFollow(length, nodes, i);
      starts := starts + [starts[i] + length / nodes + if i < length % nodes then 1 else 0];
    }
    forall i, j | 0 <= i < j < |starts| ensures starts[i] <= starts[j] {
      SlicesInside(length, nodes, i, j);
    }
  }

  // Gives every known device the node whose share of the device list it is in.
  method NumaNodes(devices: seq<nat>, nodes: nat, known: set<nat>) returns (node: map<nat, nat>, starts: seq<nat>)
    requires 0 < nodes && forall i, j :: 0 <= i < j < |devices| ==> devices[i] != devices[j]
    ensures EvenShares(starts, |devices|, nodes) && NodesUpTo(devices, starts, known, node, nodes, |devices|)
  {
    starts := ShareStarts(|devices|, nodes);
    node := NodesByShare(devices, starts, known);
  }

  method NodesByShare(devices: seq<nat>, starts: seq<nat>, known: set<nat>) returns (node: map<nat, nat>)
    requires Boundaries(starts, |devices|) && forall i, j :: 0 <= i < j < |devices| ==> devices[i] != devices[j]
    ensures NodesUpTo(devices, starts, known, node, |starts| - 1, |devices|)
  {
    node := map[];
    for id := 0 to |starts| - 1
      invariant NodesUpTo(devices, starts, known, node, id, starts[id])
    {
      node := NodeShare(devices, starts, known, node, id);
    }
  }

  // The known devices before `upTo` have the node, below `id`, whose share they are in.
  ghost predicate NodesUpTo(devices: seq<nat>, starts: seq<nat>, known: set<nat>, node: map<nat, nat>, id: nat, upTo: nat)
  {
    && id < |starts| && upTo <= |devices|
    && (forall d :: d in node <==> d in devices[..upTo] && d in known)
    && (forall k :: 0 <= k < upTo && devices[k] in node ==>
          (node[devices[k]] < id && starts[node[devices[k]]] <= k < starts[node[devices[k]] + 1]))
  }

  method NodeShare(devices: seq<nat>, starts: seq<nat>, known: set<nat>, before: map<nat, nat>, id: nat)
      returns (node: map<nat, nat>)
    requires id + 1 < |starts| && starts[id] <= starts[id + 1] <= |devices|
    requires forall i, j :: 0 <= i < j < |devices| ==> devices[i] != devices[j]
    requires NodesUpTo(devices, starts, known, before, id, starts[id])
    ensures NodesUpTo(devices, starts, known, node, id + 1, starts[id + 1])
  {
    node := before;
    for k := starts[id] to starts[id + 1]
      invariant NodesUpTo(devices, starts, known, node, id + 1, k)
    {
      assert devices[..k + 1] == devices[..k] + [devices[k]];
      if devices[k] in known {
        node := node[devices[k] := id];
      }
    }
  }
}
