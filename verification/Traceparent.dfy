/** The traceparent header: what is written is read back, and only well-formed headers are read. */
module Traceparent {
  import opened Options
  import opened Texts

  datatype TraceContext = TraceContext(traceId: string, spanId: string, sampled: bool)

  predicate IsHex(c: char) {
    '0' <= c <= '9' || 'a' <= c <= 'f'
  }

  predicate AllHex(s: string) {
    forall i :: 0 <= i < |s| ==> IsHex(s[i])
  }

  predicate AllZero(s: string) {
    forall i :: 0 <= i < |s| ==> s[i] == '0'
  }

  /** An id of `n` lower-case hexadecimal digits, not all zero. */
  predicate IsId(s: string, n: nat) {
    |s| == n && AllHex(s) && !AllZero(s)
  }

  function HexValue(c: char): (v: nat)
    requires IsHex(c)
    ensures v < 16
  {
    if c <= '9' then c as int - '0' as int else c as int - 'a' as int + 10
  }

  function Split(s: string): (parts: seq<string>)
    ensures parts != []
  {
    if s == "" then [""]
    else
      var rest := Split(s[1..]);
      if s[0] == '-' then [""] + rest else [[s[0]] + rest[0]] + rest[1..]
  }

  function Join(parts: seq<string>): string
    requires parts != []
  {
    if |parts| == 1 then parts[0] else parts[0] + "-" + Join(parts[1..])
  }

  function Write(traceId: string, spanId: string, sampled: bool): string {
    Join(["00", traceId, spanId, if sampled then "01" else "00"])
  }

  function ParseTraceparent(header: string): Option<TraceContext> {
    var parts := Split(Lower(header));
    if |parts| != 4 then None
    else if parts[0] != "00" then None
    else if !IsId(parts[1], 32) then None
    else if !IsId(parts[2], 16) then None
    else if |parts[3]| != 2 || !AllHex(parts[3]) then None
    else Some(TraceContext(parts[1], parts[2], (HexValue(parts[3][0]) * 16 + HexValue(parts[3][1])) % 2 == 1))
  }

  /** `context?.traceId || generateTraceId()`, with the ids drawn as parameters. */
  method CreateTraceparent(traceId: Option<string>, sampled: Option<bool>, drawnTraceId: string, drawnSpanId: string)
    returns (header: string, context: TraceContext)
    requires IsId(drawnTraceId, 32) && IsId(drawnSpanId, 16)
    ensures header == Write(context.traceId, context.spanId, context.sampled)
    ensures context.traceId == if traceId.Some? && traceId.value != "" then traceId.value else drawnTraceId
    ensures context.spanId == drawnSpanId && context.sampled == (sampled.None? || sampled.value)
    ensures ParseTraceparent(header) == Some(context) <==> IsId(context.traceId, 32)
    ensures traceId.None? ==> ParseTraceparent(header) == Some(context)
  {
    var id := if traceId.Some? && traceId.value != "" then traceId.value else drawnTraceId;
    var flag := if sampled.Some? then sampled.value else true;
    header := "00" + "-" + (id + "-" + (drawnSpanId + "-" + (if flag then "01" else "00")));
    context := TraceContext(id, drawnSpanId, flag);
    JoinFour("00", id, drawnSpanId, if flag then "01" else "00");
    RoundTrip(id, drawnSpanId, flag);
  }

  // ---------------------------------------------------------------- splitting undoes joining

  predicate NoDash(s: string) {
    '-' !in s
  }

  lemma {:induction false} SplitPart(a: string, rest: string)
    requires NoDash(a)
    ensures Split(a + "-" + rest) == [a] + Split(rest)
  {
    var s := a + "-" + rest;
    if a == "" {
      assert s == "-" + rest && s[1..] == rest;
    } else {
      assert s[1..] == a[1..] + "-" + rest;
      SplitPart(a[1..], rest);
      assert a == [a[0]] + a[1..];
    }
  }

  lemma {:induction false} SplitLast(a: string)
    requires NoDash(a)
    ensures Split(a) == [a]
  {
    if a != "" {
      SplitLast(a[1..]);
      assert a == [a[0]] + a[1..];
    }
  }

  lemma JoinFour(a: string, b: string, c: string, d: string)
    ensures Join([a, b, c, d]) == a + "-" + (b + "-" + (c + "-" + d))
  {
    assert [a, b, c, d][1..] == [b, c, d];
    assert [b, c, d][1..] == [c, d];
    assert [c, d][1..] == [d];
    assert Join([c, d]) == c + "-" + d;
    assert Join([b, c, d]) == b + "-" + Join([c, d]);
  }

  lemma SplitFour(a: string, b: string, c: string, d: string)
    requires NoDash(a) && NoDash(b) && NoDash(c) && NoDash(d)
    ensures Split(Join([a, b, c, d])) == [a, b, c, d]
  {
    JoinFour(a, b, c, d);
    SplitPart(a, b + "-" + (c + "-" + d));
    SplitPart(b, c + "-" + d);
    SplitPart(c, d);
    SplitLast(d);
  }

  /** Joining undoes splitting, for any text at all. */
  lemma {:induction false} JoinUndoesSplit(s: string)
    ensures Join(Split(s)) == s
  {
    if s != "" {
      JoinUndoesSplit(s[1..]);
      var rest := Split(s[1..]);
      assert s == [s[0]] + s[1..];
      if s[0] == '-' {
        assert ([""] + rest)[1..] == rest;
      } else {
        assert ([[s[0]] + rest[0]] + rest[1..])[1..] == rest[1..];
        if |rest| > 1 {
          assert ([s[0]] + rest[0]) + "-" + Join(rest[1..]) == [s[0]] + (rest[0] + "-" + Join(rest[1..]));
        }
      }
    }
  }

  // ---------------------------------------------------------------- the round trip

  lemma HexStaysAsIs(s: string)
    requires AllHex(s)
    ensures Lower(s) == s && NoDash(s)
  {
  }

  lemma LowerOfJoin(a: string, b: string, c: string, d: string)
    ensures Lower(Join([a, b, c, d])) == Join([Lower(a), Lower(b), Lower(c), Lower(d)])
  {
    JoinFour(a, b, c, d);
    JoinFour(Lower(a), Lower(b), Lower(c), Lower(d));
  }

  /** A header written for a fresh span is read back unchanged just when its trace id is well formed. */
  lemma RoundTrip(traceId: string, spanId: string, sampled: bool)
    requires IsId(spanId, 16)
    ensures ParseTraceparent(Write(traceId, spanId, sampled)) == Some(TraceContext(traceId, spanId, sampled))
       <==> IsId(traceId, 32)
  {
    if IsId(traceId, 32) {
      var flags := if sampled then "01" else "00";
      LowerOfJoin("00", traceId, spanId, flags);
      HexStaysAsIs("00");
      HexStaysAsIs(traceId);
      HexStaysAsIs(spanId);
      HexStaysAsIs(flags);
      SplitFour("00", traceId, spanId, flags);
    }
  }

  /** The lowest bit of a flags byte, by its second digit. */
  predicate IsSampled(flags: string)
    requires |flags| == 2
  {
    flags[1] in "13579bdf"
  }

  lemma LowestBit(flags: string)
    requires |flags| == 2 && AllHex(flags)
    ensures (HexValue(flags[0]) * 16 + HexValue(flags[1])) % 2 == 1 <==> IsSampled(flags)
  {
    OddDigits(flags[1]);
  }

  lemma OddDigits(c: char)
    requires IsHex(c)
    ensures HexValue(c) % 2 == 1 <==> c in "13579bdf"
  {
  }

  /** The header says this: version 00, the two ids and the flags, but for the case of its letters. */
  predicate Says(header: string, c: TraceContext, flags: string) {
    && IsId(c.traceId, 32) && IsId(c.spanId, 16) && |flags| == 2 && AllHex(flags)
    && Lower(header) == Join(["00", c.traceId, c.spanId, flags])
    && c.sampled == IsSampled(flags)
  }

  lemma ReadIsSaid(header: string)
    requires ParseTraceparent(header).Some?
    ensures exists flags :: Says(header, ParseTraceparent(header).value, flags)
  {
    var c, parts := ParseTraceparent(header).value, Split(Lower(header));
    JoinUndoesSplit(Lower(header));
    assert parts == ["00", parts[1], parts[2], parts[3]];
    LowestBit(parts[3]);
    assert Says(header, c, parts[3]);
  }

  lemma SaidIsRead(header: string, c: TraceContext, flags: string)
    requires Says(header, c, flags)
    ensures ParseTraceparent(header) == Some(c)
  {
    HexStaysAsIs("00");
    HexStaysAsIs(c.traceId);
    HexStaysAsIs(c.spanId);
    HexStaysAsIs(flags);
    SplitFour("00", c.traceId, c.spanId, flags);
    LowestBit(flags);
  }

  /** A header is read, and as this, exactly when it says so: nothing is made up, nothing well formed refused. */
  lemma OnlyWellFormedIsRead(header: string, c: TraceContext)
    ensures ParseTraceparent(header) == Some(c) <==> exists flags :: Says(header, c, flags)
  {
    if ParseTraceparent(header) == Some(c) {
      ReadIsSaid(header);
    }
    if flags :| Says(header, c, flags) {
      SaidIsRead(header, c, flags);
    }
  }
}
