/**
 Schedules (`src/common/schedule.c`): crontab fields as bitmaps, and the time of the next run.
 */
module Schedule {
  import opened Options

  // ----- Numbers and spaces

  predicate IsDigit(c: char) { '0' <= c <= '9' }

  predicate IsSpace(c: char) { c == ' ' || '\t' <= c <= '\r' }

  predicate DigitAt(s: string, k: nat) { k < |s| && IsDigit(s[k]) }

  predicate CharAt(s: string, c: char) { s != [] && s[0] == c }

  /** A number read so far, continued by the digits in front. */
  function ReadDigits(s: string, n: nat): (r: (nat, string))
    ensures |r.1| <= |s| && (DigitAt(s, 0) ==> |r.1| < |s|)
  {
    if DigitAt(s, 0) then ReadDigits(s[1..], n * 10 + (s[0] - '0') as nat) else (n, s)
  }

  /** The number in front and what follows it. */
  function ReadInt(s: string): (r: (nat, string))
    ensures |r.1| <= |s| && (DigitAt(s, 0) ==> |r.1| < |s|)
  {
    ReadDigits(s, 0)
  }

  function SkipSpace(s: string): (r: string)
    ensures |r| <= |s|
  {
    if CharAt(s, ' ') || CharAt(s, '\t') then SkipSpace(s[1..]) else s
  }

  function SkipComma(s: string): (r: string)
    ensures |r| <= |s|
  {
    if CharAt(s, ',') then s[1..] else s
  }

  // ----- One field: the bits set and what happened

  datatype Outcome = Rest(s: string) | NotInteger | OutOfRange | BadChar | ZeroDivision

  datatype Parsed = Parsed(bits: seq<bool>, outcome: Outcome)

  /** Bits `from` to `to`, both included, that stand for a multiple of `n`. */
  function Set(bits: seq<bool>, first: nat, from: int, to: int, n: nat): (r: seq<bool>)
    requires n > 0
    ensures |r| == |bits|
    ensures forall i :: 0 <= i < |bits| ==> r[i] == (bits[i] || (from <= i <= to && (i + first) % n == 0))
  {
    seq(|bits|, i requires 0 <= i < |bits| => bits[i] || (from <= i <= to && (i + first) % n == 0))
  }

  /** A range whose first number has been read, `s` starting with its last one. */
  function ParseRange(s: string, bits: seq<bool>, first: nat, a: nat): (p: Parsed)
    ensures |p.bits| == |bits| && (p.outcome.Rest? ==> |p.outcome.s| <= |s|)
  {
    if !DigitAt(s, 0) then Parsed(bits, NotInteger)
    else
      var (b, s1) := ReadInt(s);
      if b < first || b - first >= |bits| then Parsed(bits, OutOfRange)
      else if CharAt(s1, '/') then
        if !DigitAt(s1, 1) then Parsed(bits, NotInteger)
        else
          var (c, s2) := ReadInt(s1[1..]);
          if c == 0 then Parsed(bits, if a < b then ZeroDivision else Rest(s2))
          else Parsed(Set(bits, first, a - first, b - first - 1, c), Rest(s2))
      else Parsed(Set(bits, first, a - first, b - first, 1), Rest(s1))
  }

  /** A number or a range. */
  function ParseItem(s: string, bits: seq<bool>, first: nat): (p: Parsed)
    ensures |p.bits| == |bits| && (p.outcome.Rest? ==> |p.outcome.s| < |s|)
  {
    if !DigitAt(s, 0) then Parsed(bits, NotInteger)
    else
      var (a, s1) := ReadInt(s);
      if a < first || a - first >= |bits| then Parsed(bits, OutOfRange)
      else
        var more := bits[a - first := true];
        if CharAt(s1, '-') then ParseRange(s1[1..], more, first, a) else Parsed(more, Rest(s1))
  }

  function ParseList(s: string, bits: seq<bool>, first: nat): (p: Parsed)
    ensures |p.bits| == |bits|
    decreases |s|
  {
    if s == [] || IsSpace(s[0]) then Parsed(bits, Rest(s))
    else
      var p := ParseItem(s, bits, first);
      if p.outcome.Rest? then ParseList(SkipComma(p.outcome.s), p.bits, first) else p
  }

  function ParseField(s: string, bits: seq<bool>, first: nat): (p: Parsed)
    ensures |p.bits| == |bits|
  {
    if CharAt(s, '*') then
      if CharAt(s[1..], '/') then
        if !DigitAt(s, 2) then Parsed(bits, NotInteger)
        else
          var (n, rest) := ReadInt(s[2..]);
          if n == 0 then Parsed(bits, if bits == [] then Rest(rest) else ZeroDivision)
          else Parsed(Set(bits, first, 0, |bits| - 1, n), Rest(rest))
      else Parsed(Set(bits, first, 0, |bits| - 1, 1), Rest(s[1..]))
    else if DigitAt(s, 0) then ParseList(s, bits, first)
    else Parsed(bits, BadChar)
  }

  // ----- The parser on a string and a bitmap

  method ReadNumber(s: string, at: nat) returns (n: nat, end: nat)
    requires at < |s| && IsDigit(s[at])
    ensures at < end <= |s| && ReadInt(s[at..]) == (n, s[end..])
  {
    n, end := 0, at;
    while end < |s| && IsDigit(s[end])
      invariant at <= end <= |s| && (end == at ==> end < |s| && IsDigit(s[end]))
      invariant ReadDigits(s[at..], 0) == ReadDigits(s[end..], n)
    {
      assert s[end..][1..] == s[end + 1..];
      n := n * 10 + (s[end] - '0') as nat;
      end := end + 1;
    }
  }

  /** Sets the bits `from` to `to` that stand for a multiple of `n`. */
  method SetBits(dst: array<bool>, first: nat, from: nat, to: int, n: nat)
    requires n > 0 && to < dst.Length
    modifies dst
    ensures dst[..] == Set(old(dst[..]), first, from, to, n)
  {
    var i := from;
    while i <= to
      invariant from <= i && (i <= to + 1 || i == from)
      invariant forall k :: 0 <= k < dst.Length ==>
                  dst[k] == (old(dst[k]) || (from <= k <= to && k < i && (k + first) % n == 0))
    {
      if (i + first) % n == 0 {
        dst[i] := true;
      }
      i := i + 1;
    }
  }

  /** Behind the `-` of a range. */
  method FinishRange(s: string, at: nat, dst: array<bool>, first: nat, a: nat) returns (o: Outcome)
    requires at <= |s| && first <= a
    modifies dst
    ensures Parsed(dst[..], o) == ParseRange(s[at..], old(dst[..]), first, a)
  {
    hide ReadInt, Set;
    if at == |s| || !IsDigit(s[at]) {
      return NotInteger;
    }
    var b, end := ReadNumber(s, at);
    if b < first || b - first >= dst.Length {
      return OutOfRange;
    }
    if end < |s| && s[end] == '/' {
      if end + 1 == |s| || !IsDigit(s[end + 1]) {
        return NotInteger;
      }
      assert s[end..][1..] == s[end + 1..];
      var c, end' := ReadNumber(s, end + 1);
      if c == 0 {
        return if a < b then ZeroDivision else Rest(s[end'..]);
      }
      SetBits(dst, first, a - first, b - first - 1, c);
      return Rest(s[end'..]);
    }
    SetBits(dst, first, a - first, b - first, 1);
    return Rest(s[end..]);
  }

  method ReadItem(s: string, at: nat, dst: array<bool>, first: nat) returns (o: Outcome)
    requires at <= |s|
    modifies dst
    ensures Parsed(dst[..], o) == ParseItem(s[at..], old(dst[..]), first)
  {
    hide ReadInt, ParseRange;
    if at == |s| || !IsDigit(s[at]) {
      return NotInteger;
    }
    var a, end := ReadNumber(s, at);
    if a < first || a - first >= dst.Length {
      return OutOfRange;
    }
    dst[a - first] := true;
    assert dst[..] == old(dst[..])[a - first := true];
    if end < |s| && s[end] == '-' {
      assert s[end..][1..] == s[end + 1..];
      o := FinishRange(s, end + 1, dst, first, a);
    } else {
      o := Rest(s[end..]);
    }
  }

  method ReadField(s: string, dst: array<bool>, first: nat) returns (o: Outcome)
    modifies dst
    ensures Parsed(dst[..], o) == ParseField(s, old(dst[..]), first)
  {
    hide ReadInt, Set, ParseItem;
    if s == [] {
      return BadChar;
    }
    if s[0] == '*' {
      if |s| > 1 && s[1] == '/' {
        if |s| == 2 || !IsDigit(s[2]) {
          return NotInteger;
        }
        var n, end := ReadNumber(s, 2);
        if n == 0 {
          return if dst.Length == 0 then Rest(s[end..]) else ZeroDivision;
        }
        SetBits(dst, first, 0, dst.Length - 1, n);
        return Rest(s[end..]);
      }
      SetBits(dst, first, 0, dst.Length - 1, 1);
      return Rest(s[1..]);
    }
    if !IsDigit(s[0]) {
      return BadChar;
    }
    var t := s;
    while t != [] && !IsSpace(t[0])
      invariant ParseList(s, old(dst[..]), first) == ParseList(t, dst[..], first)
      decreases |t|
    {
      assert t[0..] == t;
      var r := ReadItem(t, 0, dst, first);
      if !r.Rest? {
        return r;
      }
      t := SkipComma(r.s);
    }
    o := Rest(t);
  }

  // ----- What a field means

  /** Numerals are kept as they are written. */
  datatype Item = One(a: string) | Range(a: string, b: string) | Stepped(a: string, b: string, c: string)

  datatype Field = All | Every(n: string) | Among(items: seq<Item>)

  predicate Numeral(d: string) {
    d != [] && forall i :: 0 <= i < |d| ==> IsDigit(d[i])
  }

  /** `d` read as decimal digits behind those of `n`. */
  function Decimal(n: nat, d: string): (r: nat)
    requires forall i :: 0 <= i < |d| ==> IsDigit(d[i])
  {
    if d == [] then n
    else
      var c := d[|d| - 1];
      assert IsDigit(c);
      Decimal(n, d[..|d| - 1]) * 10 + (c - '0') as nat
  }

  function NumberOf(d: string): (r: nat)
    requires Numeral(d)
  {
    Decimal(0, d)
  }

  function ShowItem(it: Item): (s: string) {
    match it
    case One(a) => a
    case Range(a, b) => a + "-" + b
    case Stepped(a, b, c) => a + "-" + b + "/" + c
  }

  function ShowList(items: seq<Item>): (s: string) {
    if items == [] then []
    else if |items| == 1 then ShowItem(items[0])
    else ShowItem(items[0]) + "," + ShowList(items[1..])
  }

  predicate Within(d: string, first: nat, count: nat) {
    Numeral(d) && first <= NumberOf(d) < first + count
  }

  /** Numbers in range, and no step of 0. */
  predicate GoodItem(it: Item, first: nat, count: nat) {
    && Within(it.a, first, count)
    && (!it.One? ==> Within(it.b, first, count))
    && (it.Stepped? ==> Numeral(it.c) && NumberOf(it.c) > 0)
  }

  predicate GoodItems(items: seq<Item>, first: nat, count: nat) {
    items != [] && forall i :: 0 <= i < |items| ==> GoodItem(items[i], first, count)
  }

  predicate GoodField(f: Field, first: nat, count: nat) {
    match f
    case All => true
    case Every(n) => Numeral(n) && NumberOf(n) > 0
    case Among(items) => GoodItems(items, first, count)
  }

  function Show(f: Field): (s: string) {
    match f
    case All => "*"
    case Every(n) => "*/" + n
    case Among(items) => ShowList(items)
  }

  /** A stepped range takes its first number and the multiples in front of its last number. */
  predicate InItem(it: Item, first: nat, count: nat, v: nat)
    requires GoodItem(it, first, count)
  {
    var a := NumberOf(it.a);
    match it
    case One(_) => v == a
    case Range(_, b) => v == a || a <= v <= NumberOf(b)
    case Stepped(_, b, c) => v == a || (a <= v < NumberOf(b) && v % NumberOf(c) == 0)
  }

  predicate InItems(items: seq<Item>, first: nat, count: nat, v: nat)
    requires GoodItems(items, first, count)
  {
    exists i :: 0 <= i < |items| && InItem(items[i], first, count, v)
  }

  predicate InField(f: Field, first: nat, count: nat, v: nat)
    requires GoodField(f, first, count)
  {
    match f
    case All => true
    case Every(n) => v % NumberOf(n) == 0
    case Among(items) => InItems(items, first, count, v)
  }

  // ----- The parser sets what the notation means

  lemma {:induction false} DecimalFromFront(n: nat, d: string)
    requires Numeral(d)
    ensures Decimal(n, d) == Decimal(n * 10 + (d[0] - '0') as nat, d[1..])
    decreases |d|
  {
    var k := |d| - 1;
    if k > 0 {
      DecimalFromFront(n, d[..k]);
      assert d[..k][1..] == d[1..][..k - 1];
    }
  }

  lemma {:induction false} ReadDecimal(n: nat, d: string, rest: string)
    requires (forall i :: 0 <= i < |d| ==> IsDigit(d[i])) && !DigitAt(rest, 0)
    ensures ReadDigits(d + rest, n) == (Decimal(n, d), rest)
    decreases |d|
  {
    if d == [] {
      assert d + rest == rest;
    } else {
      assert (d + rest)[1..] == d[1..] + rest;
      ReadDecimal(n * 10 + (d[0] - '0') as nat, d[1..], rest);
      DecimalFromFront(n, d);
    }
  }

  lemma ReadNumeral(d: string, rest: string)
    requires Numeral(d) && !DigitAt(rest, 0)
    ensures DigitAt(d + rest, 0) && ReadInt(d + rest) == (NumberOf(d), rest)
  {
    ReadDecimal(0, d, rest);
  }

  /** Nothing that would continue an item. */
  predicate Stops(rest: string) {
    !DigitAt(rest, 0) && !CharAt(rest, '-') && !CharAt(rest, '/')
  }

  predicate Gained(old_: seq<bool>, new_: seq<bool>, first: nat, it: Item)
    requires GoodItem(it, first, |old_|)
  {
    |new_| == |old_| && forall i :: 0 <= i < |old_| ==> new_[i] == (old_[i] || InItem(it, first, |old_|, i + first))
  }

  lemma RangeMeans(it: Item, rest: string, bits: seq<bool>, more: seq<bool>, first: nat)
    requires GoodItem(it, first, |bits|) && !it.One? && Stops(rest)
    requires more == bits[NumberOf(it.a) - first := true]
    ensures var s := if it.Range? then it.b + rest else it.b + ("/" + (it.c + rest));
            var p := ParseRange(s, more, first, NumberOf(it.a));
            p.outcome == Rest(rest) && Gained(bits, p.bits, first, it)
  {
    if it.Range? {
      ReadNumeral(it.b, rest);
    } else {
      ReadNumeral(it.b, "/" + (it.c + rest));
      ReadNumeral(it.c, rest);
      assert ("/" + (it.c + rest))[1..] == it.c + rest;
    }
  }

  lemma ItemMeans(it: Item, rest: string, bits: seq<bool>, first: nat)
    requires GoodItem(it, first, |bits|) && Stops(rest)
    ensures var p := ParseItem(ShowItem(it) + rest, bits, first);
            p.outcome == Rest(rest) && Gained(bits, p.bits, first, it)
  {
    hide ParseRange, ReadInt;
    if it.One? {
      ReadNumeral(it.a, rest);
    } else {
      var s := if it.Range? then it.b + rest else it.b + ("/" + (it.c + rest));
      assert ShowItem(it) + rest == it.a + ("-" + s);
      ReadNumeral(it.a, "-" + s);
      assert ("-" + s)[1..] == s;
      RangeMeans(it, rest, bits, bits[NumberOf(it.a) - first := true], first);
    }
  }

  /** The digits and the spaces, one by one. */
  lemma Characters(c: char)
    ensures IsDigit(c) <==> c in "0123456789"
    ensures IsSpace(c) <==> c in " \t\n\U{000B}\U{000C}\r"
  {
  }

  /** Written with numerals only. */
  predicate Numerals(it: Item) {
    Numeral(it.a) && (!it.One? ==> Numeral(it.b)) && (it.Stepped? ==> Numeral(it.c))
  }

  /** What becomes of any item written with numerals: out of range if one of its ends is, a division by
      zero for a step of 0 unless the range is empty, and otherwise it is read. */
  lemma ItemOutcome(it: Item, rest: string, bits: seq<bool>, first: nat)
    requires Numerals(it) && Stops(rest)
    ensures ParseItem(ShowItem(it) + rest, bits, first).outcome ==
            if !Within(it.a, first, |bits|) || (!it.One? && !Within(it.b, first, |bits|)) then OutOfRange
            else if it.Stepped? && NumberOf(it.c) == 0 && NumberOf(it.a) < NumberOf(it.b) then ZeroDivision
            else Rest(rest)
  {
    hide ReadInt, Set, Decimal;
    if it.One? {
      ReadNumeral(it.a, rest);
    } else {
      var s := if it.Range? then it.b + rest else it.b + ("/" + (it.c + rest));
      assert ShowItem(it) + rest == it.a + ("-" + s);
      ReadNumeral(it.a, "-" + s);
      assert ("-" + s)[1..] == s;
      RangeOutcome(it, rest, s);
    }
  }

  lemma RangeOutcome(it: Item, rest: string, s: string)
    requires Numerals(it) && !it.One? && Stops(rest)
    requires s == if it.Range? then it.b + rest else it.b + ("/" + (it.c + rest))
    ensures DigitAt(s, 0)
    ensures it.Range? ==> ReadInt(s) == (NumberOf(it.b), rest)
    ensures it.Stepped? ==>
      var t := "/" + (it.c + rest);
      ReadInt(s) == (NumberOf(it.b), t) && CharAt(t, '/') && DigitAt(t, 1) && ReadInt(t[1..]) == (NumberOf(it.c), rest)
  {
    hide ReadInt, Decimal;
    if it.Range? {
      ReadNumeral(it.b, rest);
    } else {
      ReadNumeral(it.b, "/" + (it.c + rest));
      ReadNumeral(it.c, rest);
      assert ("/" + (it.c + rest))[1..] == it.c + rest;
    }
  }

  /** How a field fails at its beginning: a first character that is no digit and no star, a star with
      a slash but no number, and a step of 0. */
  lemma FieldFails(s: string, d: string, rest: string, bits: seq<bool>, first: nat)
    requires Numeral(d) && !DigitAt(rest, 0) && bits != []
    ensures ParseField(s, bits, first).outcome == BadChar <==> !CharAt(s, '*') && !DigitAt(s, 0)
    ensures ParseField("*/" + rest, bits, first).outcome == NotInteger
    ensures ParseField("*/" + d + rest, bits, first).outcome == if NumberOf(d) == 0 then ZeroDivision else Rest(rest)
  {
    hide ReadInt, Set, Decimal, ParseItem;
    ReadNumeral(d, rest);
    assert ("*/" + d + rest)[1..] == "/" + d + rest && ("*/" + d + rest)[2..] == d + rest;
    assert ("*/" + rest)[1..] == "/" + rest && ("*/" + rest)[2..] == rest;
    ListIsNotBad(s, bits, first);
  }

  lemma {:induction false} ListIsNotBad(s: string, bits: seq<bool>, first: nat)
    ensures ParseList(s, bits, first).outcome != BadChar
    decreases |s|
  {
    hide ReadInt, Set;
    if s != [] && !IsSpace(s[0]) {
      var p := ParseItem(s, bits, first);
      if p.outcome.Rest? {
        ListIsNotBad(SkipComma(p.outcome.s), p.bits, first);
      }
    }
  }

  predicate Ends(rest: string) { rest == [] || IsSpace(rest[0]) }

  lemma {:induction false} ListMeans(items: seq<Item>, rest: string, bits: seq<bool>, first: nat)
    requires GoodItems(items, first, |bits|) && Ends(rest)
    ensures var p := ParseList(ShowList(items) + rest, bits, first);
            && p.outcome == Rest(rest) && |p.bits| == |bits|
            && forall i :: 0 <= i < |bits| ==> p.bits[i] == (bits[i] || InItems(items, first, |bits|, i + first))
    decreases |items|
  {
    hide ParseItem, InItem, GoodItem;
    var it := items[0];
    var tail := if |items| == 1 then rest else "," + (ShowList(items[1..]) + rest);
    assert ShowList(items) + rest == ShowItem(it) + tail;
    ItemMeans(it, tail, bits, first);
    ItemStarts(it, tail, first, |bits|);
    var p := ParseItem(ShowItem(it) + tail, bits, first);
    if |items| > 1 {
      assert tail[1..] == ShowList(items[1..]) + rest;
      ListMeans(items[1..], rest, p.bits, first);
      forall v: nat
        ensures InItems(items, first, |bits|, v) <==>
                InItem(it, first, |bits|, v) || InItems(items[1..], first, |bits|, v)
      {
        InMore(items, first, |bits|, v);
      }
    }
  }

  lemma ItemStarts(it: Item, tail: string, first: nat, count: nat)
    requires GoodItem(it, first, count)
    ensures DigitAt(ShowItem(it) + tail, 0)
  {
  }

  lemma InMore(items: seq<Item>, first: nat, count: nat, v: nat)
    requires GoodItems(items, first, count) && |items| > 1
    ensures InItems(items, first, count, v) <==>
            InItem(items[0], first, count, v) || InItems(items[1..], first, count, v)
  {
    if i :| 0 <= i < |items| && InItem(items[i], first, count, v) && i > 0 {
      assert items[1..][i - 1] == items[i];
    }
    if i :| 0 <= i < |items| - 1 && InItem(items[1..][i], first, count, v) {
      assert items[1..][i] == items[i + 1];
    }
  }

  /** The bitmap of a field is the set its notation means, for every notation and whatever the
      bitmap held before. */
  lemma FieldMeans(f: Field, rest: string, bits: seq<bool>, first: nat)
    requires GoodField(f, first, |bits|) && Ends(rest)
    ensures var p := ParseField(Show(f) + rest, bits, first);
            && p.outcome == Rest(rest) && |p.bits| == |bits|
            && forall i :: 0 <= i < |bits| ==> p.bits[i] == (bits[i] || InField(f, first, |bits|, i + first))
  {
    hide ParseList, GoodItems, InItems, ReadInt;
    match f
    case All => assert ("*" + rest)[1..] == rest;
    case Every(n) =>
      ReadNumeral(n, rest);
      assert "*/" + n + rest == "*/" + (n + rest);
      assert ("*/" + (n + rest))[2..] == n + rest && ("*/" + (n + rest))[2] == (n + rest)[0];
    case Among(items) =>
      ListMeans(items, rest, bits, first);
      ListStarts(items, rest, first, |bits|);
  }

  lemma ListStarts(items: seq<Item>, rest: string, first: nat, count: nat)
    requires GoodItems(items, first, count)
    ensures DigitAt(ShowList(items) + rest, 0)
  {
    assert GoodItem(items[0], first, count);
  }

  // ----- A crontab line

  datatype Entry = Entry(min: seq<bool>, hour: seq<bool>, day: seq<bool>, month: seq<bool>, wday: seq<bool>)

  predicate ProperEntry(e: Entry) {
    |e.min| == 60 && |e.hour| == 24 && |e.day| == 31 && |e.month| == 12 && |e.wday| == 8
  }

  /** The five fields in turn; Sunday may be written 7. */
  function ParseLine(s: string, e: Entry): (r: (Entry, Outcome))
    requires ProperEntry(e)
    ensures ProperEntry(r.0)
  {
    var p := ParseField(SkipSpace(s), e.min, 0);
    var e1 := e.(min := p.bits);
    if !p.outcome.Rest? then (e1, p.outcome)
    else
      var q := ParseField(SkipSpace(p.outcome.s), e.hour, 0);
      var e2 := e1.(hour := q.bits);
      if !q.outcome.Rest? then (e2, q.outcome)
      else
        var u := ParseField(SkipSpace(q.outcome.s), e.day, 1);
        var e3 := e2.(day := u.bits);
        if !u.outcome.Rest? then (e3, u.outcome)
        else
          var v := ParseField(SkipSpace(u.outcome.s), e.month, 1);
          var e4 := e3.(month := v.bits);
          if !v.outcome.Rest? then (e4, v.outcome)
          else
            var w := ParseField(SkipSpace(v.outcome.s), e.wday, 0);
            if !w.outcome.Rest? || !w.bits[7] then (e4.(wday := w.bits), w.outcome)
            else (e4.(wday := w.bits[0 := true]), w.outcome)
  }

  /** The broken-down local time that a schedule looks at. */
  datatype Local = Local(min: nat, hour: nat, mday: nat, mon: nat, wday: nat)

  predicate ProperLocal(t: Local) {
    t.min < 60 && t.hour < 24 && 1 <= t.mday <= 31 && t.mon < 12 && t.wday < 7
  }

  predicate Accepts(e: Entry, t: Local)
    requires ProperEntry(e) && ProperLocal(t)
  {
    e.min[t.min] && e.hour[t.hour] && e.day[t.mday - 1] && e.month[t.mon] && e.wday[t.wday]
  }

  predicate Blank(s: string) {
    forall i :: 0 <= i < |s| ==> s[i] == ' ' || s[i] == '\t'
  }

  /** Blanks in front of each field; the first needs none. */
  predicate Separates(sp: seq<string>) {
    |sp| == 5 && (forall i :: 0 <= i < 5 ==> Blank(sp[i])) && forall i :: 1 <= i < 5 ==> sp[i] != []
  }

  lemma {:induction false} SkipSpaces(sp: string, s: string)
    requires Blank(sp)
    requires !CharAt(s, ' ') && !CharAt(s, '\t')
    ensures SkipSpace(sp + s) == s
    decreases |sp|
  {
    if sp == [] {
      assert sp + s == s;
    } else {
      assert (sp + s)[1..] == sp[1..] + s;
      SkipSpaces(sp[1..], s);
    }
  }

  predicate Holds(bits: seq<bool>, f: Field, first: nat)
    requires GoodField(f, first, |bits|)
  {
    forall i :: 0 <= i < |bits| ==> bits[i] == InField(f, first, |bits|, i + first)
  }

  predicate Clear(bits: seq<bool>) { forall i :: 0 <= i < |bits| ==> !bits[i] }

  lemma SpacedField(sp: string, f: Field, rest: string, bits: seq<bool>, first: nat)
    requires Blank(sp) && GoodField(f, first, |bits|) && Ends(rest) && Clear(bits)
    ensures var p := ParseField(SkipSpace(sp + (Show(f) + rest)), bits, first);
            p.outcome == Rest(rest) && |p.bits| == |bits| && Holds(p.bits, f, first)
    ensures sp != [] ==> Ends(sp + (Show(f) + rest))
  {
    hide ParseField, InField, GoodItems, ShowList;
    FieldMeans(f, rest, bits, first);
    match f
    case Among(items) =>
      ListStarts(items, rest, first, |bits|);
      SkipSpaces(sp, Show(f) + rest);
    case _ => SkipSpaces(sp, Show(f) + rest);
  }

  /** The fields of a line. */
  datatype Line = Line(min: Field, hour: Field, day: Field, month: Field, wday: Field)

  predicate GoodLine(l: Line) {
    && GoodField(l.min, 0, 60) && GoodField(l.hour, 0, 24) && GoodField(l.day, 1, 31)
    && GoodField(l.month, 1, 12) && GoodField(l.wday, 0, 8)
  }

  /** The line as text, blanks in front of each field and `rest` behind the last. */
  function ShowLine(l: Line, sp: seq<string>, rest: string): (s: string)
    requires |sp| == 5
  {
    sp[0] + (Show(l.min) + (sp[1] + (Show(l.hour) + (sp[2] + (Show(l.day) + (sp[3] + (Show(l.month)
      + (sp[4] + (Show(l.wday) + rest)))))))))
  }

  /** A time is in all five fields; Sunday is 0 or 7. */
  predicate InLine(l: Line, t: Local)
    requires GoodLine(l)
  {
    && InField(l.min, 0, 60, t.min) && InField(l.hour, 0, 24, t.hour) && InField(l.day, 1, 31, t.mday)
    && InField(l.month, 1, 12, t.mon + 1)
    && (InField(l.wday, 0, 8, t.wday) || (t.wday == 0 && InField(l.wday, 0, 8, 7)))
  }

  /** Bitmaps of a line, before Sunday's two names are joined. */
  predicate Reflects(e: Entry, l: Line)
    requires ProperEntry(e) && GoodLine(l)
  {
    && Holds(e.min, l.min, 0) && Holds(e.hour, l.hour, 0) && Holds(e.day, l.day, 1)
    && Holds(e.month, l.month, 1) && Holds(e.wday, l.wday, 0)
  }

  lemma LineParses(l: Line, sp: seq<string>, rest: string, e: Entry)
    requires Separates(sp) && GoodLine(l) && Ends(rest) && ProperEntry(e)
    requires Clear(e.min) && Clear(e.hour) && Clear(e.day) && Clear(e.month) && Clear(e.wday)
    ensures var (e', o) := ParseLine(ShowLine(l, sp, rest), e);
            && o == Rest(rest)
            && exists wday :: |wday| == 8 && Reflects(e'.(wday := wday), l)
                              && e'.wday == if wday[7] then wday[0 := true] else wday
  {
    hide ParseField, Show, GoodField, Holds, SkipSpace, Blank, Ends, Clear;
    var s4 := sp[4] + (Show(l.wday) + rest);
    SpacedField(sp[4], l.wday, rest, e.wday, 0);
    var s3 := sp[3] + (Show(l.month) + s4);
    SpacedField(sp[3], l.month, s4, e.month, 1);
    var s2 := sp[2] + (Show(l.day) + s3);
    SpacedField(sp[2], l.day, s3, e.day, 1);
    var s1 := sp[1] + (Show(l.hour) + s2);
    SpacedField(sp[1], l.hour, s2, e.hour, 0);
    SpacedField(sp[0], l.min, s1, e.min, 0);
    var wday := ParseField(SkipSpace(s4), e.wday, 0).bits;
    assert Reflects(ParseLine(ShowLine(l, sp, rest), e).0.(wday := wday), l);
  }

  lemma ReflectedAccepts(e: Entry, l: Line, t: Local)
    requires ProperEntry(e) && GoodLine(l) && Reflects(e, l) && ProperLocal(t)
    ensures Accepts(e.(wday := if e.wday[7] then e.wday[0 := true] else e.wday), t) <==> InLine(l, t)
  {
    hide InField, GoodField;
    HoldsAt(e.min, l.min, 0, t.min);
    HoldsAt(e.hour, l.hour, 0, t.hour);
    HoldsAt(e.day, l.day, 1, t.mday - 1);
    HoldsAt(e.month, l.month, 1, t.mon);
    HoldsAt(e.wday, l.wday, 0, t.wday);
    HoldsAt(e.wday, l.wday, 0, 7);
  }

  lemma HoldsAt(bits: seq<bool>, f: Field, first: nat, i: nat)
    requires GoodField(f, first, |bits|) && Holds(bits, f, first) && i < |bits|
    ensures bits[i] == InField(f, first, |bits|, i + first)
  {
  }

  /** A parsed line accepts exactly the times its notation means. */
  lemma LineMeans(l: Line, sp: seq<string>, rest: string, e: Entry, t: Local)
    requires Separates(sp) && GoodLine(l) && Ends(rest) && ProperEntry(e)
    requires Clear(e.min) && Clear(e.hour) && Clear(e.day) && Clear(e.month) && Clear(e.wday) && ProperLocal(t)
    ensures ParseLine(ShowLine(l, sp, rest), e).1 == Rest(rest)
    ensures Accepts(ParseLine(ShowLine(l, sp, rest), e).0, t) <==> InLine(l, t)
  {
    hide ParseLine, ShowLine, InLine, Accepts, Reflects, Blank, GoodLine;
    LineParses(l, sp, rest, e);
    var e' := ParseLine(ShowLine(l, sp, rest), e).0;
    var wday :| |wday| == 8 && Reflects(e'.(wday := wday), l) && e'.wday == if wday[7] then wday[0 := true] else wday;
    ReflectedAccepts(e'.(wday := wday), l, t);
    assert e'.(wday := wday).(wday := e'.wday) == e';
  }

  class Crontab {
    const min: array<bool>
    const hour: array<bool>
    const day: array<bool>
    const month: array<bool>
    const wday: array<bool>

    constructor ()
      ensures Valid() && fresh(Bitmaps())
      ensures Clear(View().min) && Clear(View().hour) && Clear(View().day) && Clear(View().month) && Clear(View().wday)
    {
      min, hour := new bool[60](_ => false), new bool[24](_ => false);
      day, month := new bool[31](_ => false), new bool[12](_ => false);
      wday := new bool[8](_ => false);
    }

    ghost function Bitmaps(): (r: set<array<bool>>) { {min, hour, day, month, wday} }

    ghost predicate Valid() {
      min.Length == 60 && hour.Length == 24 && day.Length == 31 && month.Length == 12 && wday.Length == 8
    }

    ghost function View(): (e: Entry)
      reads Bitmaps()
    {
      Entry(min[..], hour[..], day[..], month[..], wday[..])
    }

    method Parse(s: string) returns (o: Outcome)
      requires Valid()
      modifies Bitmaps()
      ensures (View(), o) == ParseLine(s, old(View()))
    {
      hide ParseField;
      o := ReadField(SkipSpace(s), min, 0);
      if !o.Rest? {
        return;
      }
      o := ReadField(SkipSpace(o.s), hour, 0);
      if !o.Rest? {
        return;
      }
      o := ReadField(SkipSpace(o.s), day, 1);
      if !o.Rest? {
        return;
      }
      o := ReadField(SkipSpace(o.s), month, 1);
      if !o.Rest? {
        return;
      }
      o := ReadField(SkipSpace(o.s), wday, 0);
      if o.Rest? && wday[7] {
        wday[0] := true;
      }
    }

    /** The first whole minute after `now` and within 365 days that the bitmaps accept; without
        one the program panics. */
    method NextRun(now: int, local: int -> Local) returns (r: Option<int>)
      requires Valid() && forall t :: ProperLocal(local(t))
      ensures r.Some? ==> Candidate(now, r.value) && Accepts(View(), local(r.value))
      ensures forall t :: Candidate(now, t) && (r.Some? ==> t < r.value) ==> !Accepts(View(), local(t))
    {
      hide FirstMinute, ProperLocal;
      FirstMinuteIsWhole(now);
      var t := FirstMinute(now);
      while t < now + YEAR
        invariant t % MINUTE == 0 && FirstMinute(now) <= t
        invariant forall x :: Candidate(now, x) && x < t ==> !Accepts(View(), local(x))
        decreases now + YEAR - t
      {
        assert ProperLocal(local(t));
        var ok := Check(local(t));
        if ok {
          return Some(t);
        }
        NextMinute(t);
        t := t + MINUTE;
      }
      return None;
    }

    method Check(l: Local) returns (ok: bool)
      requires Valid() && ProperLocal(l)
      ensures ok == Accepts(View(), l)
    {
      ok := min[l.min] && hour[l.hour] && day[l.mday - 1] && month[l.mon] && wday[l.wday];
    }
  }

  // ----- The next run

  const MINUTE: int := 60000000
  const YEAR: int := 31536000000000

  /** The minute the search starts from; C division truncates towards zero. */
  function FirstMinute(now: int): (t: int) {
    ((if now >= 0 then now / MINUTE else -((-now) / MINUTE)) + 1) * MINUTE
  }

  predicate Candidate(now: int, t: int) {
    t % MINUTE == 0 && FirstMinute(now) <= t < now + YEAR
  }

  lemma FirstMinuteIsWhole(now: int)
    ensures FirstMinute(now) % MINUTE == 0
  {
  }

  lemma NextMinute(t: int)
    requires t % MINUTE == 0
    ensures (t + MINUTE) % MINUTE == 0
    ensures forall x :: t < x < t + MINUTE ==> x % MINUTE != 0
  {
  }

  /** The search starts at the whole minute right after `now` exactly for times from the epoch on
      and for whole minutes; before the epoch it skips one. */
  lemma StartsRightAfter(now: int)
    ensures now < FirstMinute(now) <= now + MINUTE <==> now >= 0 || now % MINUTE == 0
  {
  }

  lemma CandidatesAfter(now: int, t: int)
    requires now >= 0
    ensures Candidate(now, t) <==> t % 60_000_000 == 0 && now < t < now + 365 * 24 * 60 * 60_000_000
  {
    StartsRightAfter(now);
    FirstMinuteIsWhole(now);
    NextMinute(FirstMinute(now) - MINUTE);
  }

  /** Steps of `period` until after `now`. */
  function After(first: int, period: nat, now: int): (t: int)
    requires period > 0
    decreases now - first
  {
    if first > now then first else After(first + period, period, now)
  }

  /** A run `k` periods after `first`. */
  function Run(first: int, period: nat, k: nat): (t: int) { first + k * period }

  /** The result is the least of the runs after `now`. */
  lemma {:induction false} AfterIsLeast(first: int, period: nat, now: int) returns (k: nat)
    requires period > 0
    ensures After(first, period, now) == Run(first, period, k) > now
    ensures forall j: nat :: Run(first, period, j) > now ==> j >= k
    ensures After(first, period, now) >= first && (now >= first ==> After(first, period, now) > first)
    decreases now - first
  {
    if first > now {
      k := 0;
    } else {
      var j := AfterIsLeast(first + period, period, now);
      k := j + 1;
      RunShift(first, period, j);
      forall i: nat | Run(first, period, i) > now
        ensures i >= k
      {
        if i > 0 {
          RunShift(first, period, i - 1);
        }
      }
    }
  }

  lemma RunShift(first: int, period: nat, j: nat)
    ensures Run(first, period, j + 1) == Run(first + period, period, j)
    ensures Run(first, period, 0) == first
  {
  }

  /** An entry that runs every so many seconds. */
  class Interval {
    const every: nat
    /** Time of the last run determined, 0 if there is none. */
    var first: int

    constructor (every: nat, first: int)
      ensures this.every == every && this.first == first
    {
      this.every, this.first := every, first;
    }

    method NextRun(now: int) returns (t: int)
      requires every > 0
      modifies this
      ensures t == first == NextInterval(old(first), every * 1000000, now)
    {
      if first != 0 {
        while first <= now
          invariant After(old(first), every * 1000000, now) == After(first, every * 1000000, now)
          decreases now - first
        {
          first := first + every * 1000000;
        }
      } else {
        first := now;
      }
      t := first;
    }
  }

  function NextInterval(first: int, period: nat, now: int): (t: int)
    requires period > 0
  {
    if first != 0 then After(first, period, now) else now
  }

  /** A schedule without a start begins now; any other runs at the first whole number of periods from
      its start that is after now. */
  lemma NextIntervalMeans(first: int, period: nat, now: int)
    requires period > 0
    ensures first == 0 ==> NextInterval(first, period, now) == now
    ensures first != 0 ==>
      exists k: nat :: IsNext(first, period, now, k) && NextInterval(first, period, now) == Run(first, period, k)
  {
    if first != 0 {
      var k := AfterIsLeast(first, period, now);
      assert IsNext(first, period, now, k);
    }
  }

  ghost predicate IsNext(first: int, period: nat, now: int, k: nat) {
    Run(first, period, k) > now && forall j: nat :: j < k ==> Run(first, period, j) <= now
  }

  /** The results of one call after the other. */
  function Results(first: int, period: nat, nows: seq<int>): (ts: seq<int>)
    requires period > 0
    ensures |ts| == |nows|
    decreases |nows|
  {
    if nows == [] then []
    else var t := NextInterval(first, period, nows[0]); [t] + Results(t, period, nows[1..])
  }

  /** Asked again at or after each run, the schedule moves on by whole periods and never back. */
  lemma {:induction false} RunsAdvance(first: int, period: nat, nows: seq<int>, i: nat) returns (k: nat)
    requires period > 0 && i + 1 < |nows|
    requires forall j :: 0 <= j < |nows| ==> nows[j] > 0
    requires var ts := Results(first, period, nows); forall j :: 0 <= j < |nows| - 1 ==> nows[j + 1] >= ts[j]
    ensures var ts := Results(first, period, nows);
            ts[i] < ts[i + 1] && ts[i + 1] == Run(ts[i], period, k)
    decreases i
  {
    var t := NextInterval(first, period, nows[0]);
    var later := nows[1..];
    assert Results(first, period, nows)[1..] == Results(t, period, later);
    if i == 0 {
      if first != 0 {
        var _ := AfterIsLeast(first, period, nows[0]);
      }
      assert nows[1] >= Results(first, period, nows)[0];
      k := AfterIsLeast(t, period, later[0]);
    } else {
      forall j | 0 <= j < |later| - 1
        ensures later[j + 1] >= Results(t, period, later)[j]
      {
        assert nows[j + 2] >= Results(first, period, nows)[j + 1];
      }
      k := RunsAdvance(t, period, later, i - 1);
    }
  }
}
