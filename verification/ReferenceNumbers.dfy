/**
 Document references and work orders: the next number after the latest one under a day's
 prefix, where "latest" is by length and then by text.
 */
module ReferenceNumbers {
  import opened Options
  import opened Decimals

  const REF_WIDTH: nat := 4
  const ORDER_WIDTH: nat := 3
  const MAX_ATTEMPTS: nat := 50

  function DocPrefix(date: string): string {
    "TDS-" + date + "-"
  }

  function OrderPrefix(date: string): string {
    "WO-" + date + "-"
  }

  function Generated(prefix: string, width: nat, n: nat): string {
    prefix + Padded(n, width)
  }

  // ---------------------------------------------------------------- shortlex order

  /** `a` and `b` first differ at `k`, and there `a` has the smaller character. */
  predicate LexLessAt(a: string, b: string, k: int)
    requires |a| == |b|
  {
    0 <= k < |a| && (forall m :: 0 <= m < k ==> a[m] == b[m]) && a[k] < b[k]
  }

  predicate LexLess(a: string, b: string)
    requires |a| == |b|
  {
    exists k :: 0 <= k < |a| && LexLessAt(a, b, k)
  }

  predicate ShortlexLess(a: string, b: string) {
    |a| < |b| || (|a| == |b| && LexLess(a, b))
  }

  lemma LexLessTransitive(a: string, b: string, c: string)
    requires |a| == |b| == |c| && LexLess(a, b) && LexLess(b, c)
    ensures LexLess(a, c)
  {
    var i :| 0 <= i < |a| && LexLessAt(a, b, i);
    var j :| 0 <= j < |b| && LexLessAt(b, c, j);
    var k := if i < j then i else j;
    assert LexLessAt(a, c, k);
  }

  lemma LexLessIrreflexive(a: string, b: string)
    requires |a| == |b| && LexLess(a, b)
    ensures !LexLess(b, a) && a != b
  {
  }

  lemma ShortlexTransitive(a: string, b: string, c: string)
    requires ShortlexLess(a, b) && ShortlexLess(b, c)
    ensures ShortlexLess(a, c)
  {
    if |a| == |b| == |c| {
      LexLessTransitive(a, b, c);
    }
  }

  lemma ShortlexAsymmetric(a: string, b: string)
    requires ShortlexLess(a, b)
    ensures !ShortlexLess(b, a) && a != b
  {
    if |a| == |b| {
      LexLessIrreflexive(a, b);
    }
  }

  // ---------------------------------------------------------------- digits sort as numbers

  lemma SameFrontAndLast(s: string, t: string)
    requires s != "" && |s| == |t| && s[..|s| - 1] == t[..|t| - 1] && s[|s| - 1] == t[|t| - 1]
    ensures s == t
  {
    assert s == s[..|s| - 1] + [s[|s| - 1]] && t == t[..|t| - 1] + [t[|t| - 1]];
  }

  lemma {:induction false} EqualDigitsFromValue(s: string, t: string)
    requires AllDigits(s) && AllDigits(t) && |s| == |t| && Parse(s) == Parse(t)
    ensures s == t
  {
    if s != "" {
      EqualDigitsFromValue(s[..|s| - 1], t[..|t| - 1]);
      SameFrontAndLast(s, t);
    }
  }

  lemma {:induction false} SmallerValueSortsFirst(s: string, t: string)
    requires AllDigits(s) && AllDigits(t) && |s| == |t| && Parse(s) < Parse(t)
    ensures LexLess(s, t)
  {
    var n := |s| - 1;
    var s', t' := s[..n], t[..n];
    if Parse(s') < Parse(t') {
      SmallerValueSortsFirst(s', t');
      var k :| 0 <= k < |s'| && LexLessAt(s', t', k);
      assert LexLessAt(s, t, k);
    } else {
      EqualDigitsFromValue(s', t');
      assert forall m :: 0 <= m < n ==> s'[m] == t'[m];
      assert LexLessAt(s, t, n);
    }
  }

  lemma {:induction false} PrintLengthGrows(m: nat, n: nat)
    requires m <= n
    ensures |Print(m)| <= |Print(n)|
  {
    if m >= 10 {
      PrintLengthGrows(m / 10, n / 10);
    }
  }

  lemma LexLessUnderPrefix(p: string, s: string, t: string)
    requires |s| == |t| && LexLess(s, t)
    ensures LexLess(p + s, p + t)
  {
    var k :| 0 <= k < |s| && LexLessAt(s, t, k);
    forall m | 0 <= m < |p| + k ensures (p + s)[m] == (p + t)[m] {
      assert m >= |p| ==> s[m - |p|] == t[m - |p|];
    }
    assert LexLessAt(p + s, p + t, |p| + k);
  }

  lemma SmallerNumberSortsFirst(prefix: string, width: nat, m: nat, n: nat)
    requires m < n
    ensures ShortlexLess(Generated(prefix, width, m), Generated(prefix, width, n))
  {
    PrintLengthGrows(m, n);
    var s, t := Padded(m, width), Padded(n, width);
    if |s| == |t| {
      ParsePadded(m, width);
      ParsePadded(n, width);
      SmallerValueSortsFirst(s, t);
      LexLessUnderPrefix(prefix, s, t);
    }
  }

  /** By length, then text, is by number - for any minimum width and past it. */
  lemma ShortlexIsNumeric(prefix: string, width: nat, m: nat, n: nat)
    ensures ShortlexLess(Generated(prefix, width, m), Generated(prefix, width, n)) <==> m < n
  {
    if m < n {
      SmallerNumberSortsFirst(prefix, width, m, n);
    } else {
      if n < m {
        SmallerNumberSortsFirst(prefix, width, n, m);
        ShortlexAsymmetric(Generated(prefix, width, n), Generated(prefix, width, m));
      } else if ShortlexLess(Generated(prefix, width, m), Generated(prefix, width, n)) {
        ShortlexAsymmetric(Generated(prefix, width, m), Generated(prefix, width, n));
      }
    }
  }

  // ---------------------------------------------------------------- reading a number back

  /** `split('-')[-1]` */
  function LastPart(s: string): string {
    if s == "" then ""
    else if s[|s| - 1] == '-' then ""
    else LastPart(s[..|s| - 1]) + [s[|s| - 1]]
  }

  lemma {:induction false} LastPartOfDigits(head: string, digits: string)
    requires AllDigits(digits) && head != "" && head[|head| - 1] == '-'
    ensures LastPart(head + digits) == digits
  {
    if digits == "" {
      assert head + digits == head;
    } else {
      LastPartOfDigits(head, digits[..|digits| - 1]);
      assert (head + digits)[..|head + digits| - 1] == head + digits[..|digits| - 1];
    }
  }

  predicate EndsInDash(prefix: string) {
    prefix != "" && prefix[|prefix| - 1] == '-'
  }

  /** Parsing undoes formatting, past 9999 as well. */
  lemma ReadingUndoesGenerating(prefix: string, width: nat, n: nat)
    requires EndsInDash(prefix)
    ensures ToNat(LastPart(Generated(prefix, width, n))) == Some(n)
  {
    var digits := Padded(n, width);
    LastPartOfDigits(prefix, digits);
    DigitsAreStripped(digits);
    DigitsReadAsNumber(digits);
    ParsePadded(n, width);
  }

  // ---------------------------------------------------------------- the next reference

  predicate Under(prefix: string, r: string) {
    prefix <= r
  }

  ghost predicate IsLatest(refs: set<string>, prefix: string, latest: Option<string>) {
    match latest
    case None => forall r :: r in refs ==> !Under(prefix, r)
    case Some(l) => l in refs && Under(prefix, l) && forall r :: r in refs && Under(prefix, r) ==> !ShortlexLess(l, r)
  }

  function NextNumber(latest: Option<string>): nat {
    match latest
    case None => 1
    case Some(l) =>
      if l == "" then 1
      else match ToNat(LastPart(l))
           case Some(n) => n + 1
           case None => 1
  }

  /** Every reference under the prefix was generated here. */
  ghost predicate OnlyGenerated(refs: set<string>, prefix: string, width: nat) {
    forall r :: r in refs && Under(prefix, r) ==> exists n: nat :: r == Generated(prefix, width, n)
  }

  /**
   When all references under a prefix were generated here, the next one is fresh and
   comes after every one of them, by number and in the order of the query.
   */
  lemma NextIsFreshAndLast(refs: set<string>, prefix: string, width: nat, latest: Option<string>)
    requires EndsInDash(prefix) && IsLatest(refs, prefix, latest) && OnlyGenerated(refs, prefix, width)
    ensures var next := Generated(prefix, width, NextNumber(latest));
            next !in refs && forall r :: r in refs && Under(prefix, r) ==> ShortlexLess(r, next)
    ensures forall n: nat :: Generated(prefix, width, n) in refs ==> n < NextNumber(latest)
  {
    var next := NextNumber(latest);
    forall n: nat | Generated(prefix, width, n) in refs ensures n < next {
      var l := latest.value;
      var top: nat :| l == Generated(prefix, width, top);
      ReadingUndoesGenerating(prefix, width, top);
      ShortlexIsNumeric(prefix, width, top, n);
    }
    forall r | r in refs && Under(prefix, r) ensures ShortlexLess(r, Generated(prefix, width, next)) {
      var n: nat :| r == Generated(prefix, width, n);
      ShortlexIsNumeric(prefix, width, n, next);
    }
  }

  ghost predicate IsNextNumber(refs: set<string>, prefix: string, number: nat) {
    exists latest :: IsLatest(refs, prefix, latest) && number == NextNumber(latest)
  }

  lemma LatestIsOneBefore(refs: set<string>, prefix: string, width: nat, latest: string)
    requires EndsInDash(prefix) && OnlyGenerated(refs, prefix, width) && IsLatest(refs, prefix, Some(latest))
    ensures NextNumber(Some(latest)) >= 1 && latest == Generated(prefix, width, NextNumber(Some(latest)) - 1)
  {
    var top: nat :| latest == Generated(prefix, width, top);
    ReadingUndoesGenerating(prefix, width, top);
  }

  lemma NextNumberIsPastAll(refs: set<string>, prefix: string, width: nat, n: nat)
    requires EndsInDash(prefix) && OnlyGenerated(refs, prefix, width) && IsNextNumber(refs, prefix, n)
    ensures n >= 1 && forall m: nat :: Generated(prefix, width, m) in refs ==> m < n
    ensures Generated(prefix, width, n - 1) in refs || (n == 1 && forall r :: r in refs ==> !Under(prefix, r))
  {
    var latest :| IsLatest(refs, prefix, latest) && n == NextNumber(latest);
    NextIsFreshAndLast(refs, prefix, width, latest);
    if latest.Some? {
      LatestIsOneBefore(refs, prefix, width, latest.value);
    }
  }

  lemma GreatestIsLatest(refs: set<string>, prefix: string, width: nat, top: nat)
    requires EndsInDash(prefix) && OnlyGenerated(refs, prefix, width)
    requires Generated(prefix, width, top) in refs && forall m: nat :: Generated(prefix, width, m) in refs ==> m <= top
    ensures IsLatest(refs, prefix, Some(Generated(prefix, width, top))) && IsNextNumber(refs, prefix, top + 1)
  {
    var latest := Generated(prefix, width, top);
    forall r | r in refs && Under(prefix, r) ensures !ShortlexLess(latest, r) {
      var m: nat :| r == Generated(prefix, width, m);
      ShortlexIsNumeric(prefix, width, top, m);
    }
    ReadingUndoesGenerating(prefix, width, top);
    assert IsLatest(refs, prefix, Some(latest)) && top + 1 == NextNumber(Some(latest));
  }

  /** With generated references only, the next number is one past the greatest in use, or 1 when there are none. */
  lemma NextIsOnePastGreatest(refs: set<string>, prefix: string, width: nat, n: nat)
    requires EndsInDash(prefix) && OnlyGenerated(refs, prefix, width)
    ensures IsNextNumber(refs, prefix, n) <==>
      && n >= 1
      && (forall m: nat :: Generated(prefix, width, m) in refs ==> m < n)
      && (Generated(prefix, width, n - 1) in refs || (n == 1 && forall r :: r in refs ==> !Under(prefix, r)))
  {
    if IsNextNumber(refs, prefix, n) {
      NextNumberIsPastAll(refs, prefix, width, n);
    }
    if n >= 1 && Generated(prefix, width, n - 1) in refs
       && forall m: nat :: Generated(prefix, width, m) in refs ==> m < n
    {
      GreatestIsLatest(refs, prefix, width, n - 1);
    }
    if n == 1 && forall r :: r in refs ==> !Under(prefix, r) {
      assert IsLatest(refs, prefix, None) && n == NextNumber(None);
    }
  }

  lemma {:induction false} LastPartIsTail(head: string, tail: string)
    requires '-' !in tail
    ensures LastPart(head + "-" + tail) == tail
  {
    var s := head + "-" + tail;
    if tail != "" {
      LastPartIsTail(head, tail[..|tail| - 1]);
      assert s[..|s| - 1] == head + "-" + tail[..|tail| - 1];
    }
  }

  /**
   Whatever the latest text is: if what follows its last dash reads as a number, the next
   one is one more, and else 1.
   */
  lemma NextFollowsLastDash(head: string, tail: string)
    requires '-' !in tail
    ensures NextNumber(Some(head + "-" + tail)) == match ToNat(tail) case Some(n) => n + 1 case None => 1
  {
    LastPartIsTail(head, tail);
  }

  /** The first references of a day. */
  lemma FirstOfDay(refs: set<string>, orders: set<string>, date: string, n: nat)
    ensures (forall r :: r in refs ==> !Under("TDS-" + date + "-", r)) && IsNextNumber(refs, DocPrefix(date), n) ==>
              Generated(DocPrefix(date), REF_WIDTH, n) == "TDS-" + date + "-0001"
    ensures (forall r :: r in orders ==> !Under("WO-" + date + "-", r))
            && IsNextNumber(orders, OrderPrefix(date), n) ==>
              Generated(OrderPrefix(date), ORDER_WIDTH, n) == "WO-" + date + "-001"
  {
    OneIsPadded();
    if IsNextNumber(refs, DocPrefix(date), n) && forall r :: r in refs ==> !Under("TDS-" + date + "-", r) {
      var latest :| IsLatest(refs, DocPrefix(date), latest) && n == NextNumber(latest);
      assert "TDS-" + date + "-" + "0001" == "TDS-" + date + "-0001";
    }
    if IsNextNumber(orders, OrderPrefix(date), n) && forall r :: r in orders ==> !Under("WO-" + date + "-", r) {
      var latest :| IsLatest(orders, OrderPrefix(date), latest) && n == NextNumber(latest);
      assert "WO-" + date + "-" + "001" == "WO-" + date + "-001";
    }
  }

  lemma OneIsPadded()
    ensures Padded(1, 4) == "0001" && Padded(1, 3) == "001"
  {
    assert Print(1) == "1" && "0" + "1" == "01" && "0" + "01" == "001" && "0" + "001" == "0001";
    assert ZeroFilled("001", 4) == ZeroFilled("0001", 4) == "0001";
    assert ZeroFilled("01", 3) == ZeroFilled("001", 3) == "001";
    assert ZeroFilled("1", 4) == ZeroFilled("01", 4) == ZeroFilled("001", 4);
    assert ZeroFilled("1", 3) == ZeroFilled("01", 3);
  }

  /** The document references numbered `lo` to `hi - 1` are all on file. */
  ghost predicate AllTaken(refs: set<string>, prefix: string, lo: nat, hi: nat) {
    forall n: nat :: lo <= n < hi ==> Generated(prefix, REF_WIDTH, n) in refs
  }

  lemma OneMoreTaken(refs: set<string>, prefix: string, lo: nat, hi: nat)
    requires AllTaken(refs, prefix, lo, hi) && Generated(prefix, REF_WIDTH, hi) in refs
    ensures AllTaken(refs, prefix, lo, hi + 1)
  {
  }

  lemma FirstFreeIsFree(refs: set<string>, prefix: string, first: nat, number: nat)
    requires EndsInDash(prefix) && IsNextNumber(refs, prefix, first)
    requires first <= number <= first + MAX_ATTEMPTS && AllTaken(refs, prefix, first, number)
    requires Generated(prefix, REF_WIDTH, number) in refs ==> number == first + MAX_ATTEMPTS
    ensures Generated(prefix, REF_WIDTH, number) in refs <==> AllTaken(refs, prefix, first, first + MAX_ATTEMPTS + 1)
    ensures OnlyGenerated(refs, prefix, REF_WIDTH) ==> number == first && Generated(prefix, REF_WIDTH, first) !in refs
  {
    if OnlyGenerated(refs, prefix, REF_WIDTH) {
      FirstComesLast(refs, prefix, first);
      assert first < number ==> Generated(prefix, REF_WIDTH, first) in refs;
    }
    if Generated(prefix, REF_WIDTH, number) in refs {
      OneMoreTaken(refs, prefix, first, number);
    }
  }

  /** `ref` is the first free number from `first` on, or the last of the 51 tried when all are taken. */
  ghost predicate FirstFree(refs: set<string>, prefix: string, first: nat, ref: string) {
    exists number: nat ::
      && first <= number <= first + 50 && ref == Generated(prefix, REF_WIDTH, number)
      && AllTaken(refs, prefix, first, number) && (ref in refs ==> number == first + 50)
  }

  predicate FreeAsGiven(refs: set<string>, given: string) {
    Strip(given) != "" && Strip(given) !in refs
  }

  ghost predicate ComesLast(refs: set<string>, prefix: string, ref: string) {
    ref !in refs && forall r :: r in refs && Under(prefix, r) ==> ShortlexLess(r, ref)
  }

  /** A given work order is stored without its outer blanks, a blank one replaced by the next number. */
  ghost predicate StoredOrder(orders: set<string>, given: string, date: string, stored: string) {
    if Strip(given) != "" then stored == Strip(given)
    else exists n: nat :: IsNextNumber(orders, OrderPrefix(date), n)
                          && stored == Generated(OrderPrefix(date), ORDER_WIDTH, n)
  }

  lemma FirstComesLast(refs: set<string>, prefix: string, first: nat)
    requires EndsInDash(prefix) && IsNextNumber(refs, prefix, first) && OnlyGenerated(refs, prefix, REF_WIDTH)
    ensures ComesLast(refs, prefix, Generated(prefix, REF_WIDTH, first))
    ensures OnlyGenerated(refs + {Generated(prefix, REF_WIDTH, first)}, prefix, REF_WIDTH)
  {
    var latest :| IsLatest(refs, prefix, latest) && first == NextNumber(latest);
    NextIsFreshAndLast(refs, prefix, REF_WIDTH, latest);
  }

  // ---------------------------------------------------------------- the code

  datatype Posted = Stored(ref: string) | Rejected

  class PrintLog {
    var docRefs: set<string>
    var workOrders: set<string>

    constructor ()
      ensures docRefs == {} && workOrders == {}
    {
      docRefs, workOrders := {}, {};
    }

    /** The first row under a prefix, longest and then greatest text first. */
    method LatestUnder(refs: set<string>, prefix: string) returns (latest: Option<string>)
      ensures IsLatest(refs, prefix, latest)
    {
      latest := None;
      var todo := refs;
      while todo != {}
        invariant todo <= refs
        invariant IsLatest(refs - todo, prefix, latest)
        decreases |todo|
      {
        var r :| r in todo;
        if Under(prefix, r) && (latest.None? || ShortlexLess(latest.value, r)) {
          forall q | q in refs - todo && Under(prefix, q) ensures !ShortlexLess(r, q) {
            if ShortlexLess(r, q) {
              ShortlexTransitive(latest.value, r, q);
            }
          }
          if ShortlexLess(r, r) {
            ShortlexAsymmetric(r, r);
          }
          latest := Some(r);
        }
        todo := todo - {r};
      }
      assert refs - todo == refs;
    }

    /** One past the number of the latest entry under the prefix, or 1. */
    method GenerateNext(refs: set<string>, prefix: string, width: nat) returns (next: string, ghost number: nat)
      requires EndsInDash(prefix)
      ensures IsNextNumber(refs, prefix, number) && next == Generated(prefix, width, number)
      ensures OnlyGenerated(refs, prefix, width) ==> next !in refs
    {
      var latest := LatestUnder(refs, prefix);
      number := NextNumber(latest);
      next := Generated(prefix, width, NextNumber(latest));
      if OnlyGenerated(refs, prefix, width) {
        NextIsFreshAndLast(refs, prefix, width, latest);
      }
    }

    method GenerateNextDocRef(date: string) returns (ref: string, ghost number: nat)
      ensures IsNextNumber(docRefs, DocPrefix(date), number) && ref == Generated(DocPrefix(date), REF_WIDTH, number)
      ensures OnlyGenerated(docRefs, DocPrefix(date), REF_WIDTH) ==> ref !in docRefs
    {
      ref, number := GenerateNext(docRefs, DocPrefix(date), REF_WIDTH);
    }

    method GenerateDefaultWorkOrder(date: string) returns (order: string, ghost number: nat)
      ensures IsNextNumber(workOrders, OrderPrefix(date), number)
      ensures order == Generated(OrderPrefix(date), ORDER_WIDTH, number)
      ensures OnlyGenerated(workOrders, OrderPrefix(date), ORDER_WIDTH) ==> order !in workOrders
    {
      order, number := GenerateNext(workOrders, OrderPrefix(date), ORDER_WIDTH);
    }

    /** One past the number a generated reference carries. */
    method NextAfter(prefix: string, candidate: string, ghost number: nat) returns (next: string)
      requires EndsInDash(prefix) && candidate == Generated(prefix, REF_WIDTH, number)
      ensures next == Generated(prefix, REF_WIDTH, number + 1)
    {
      ReadingUndoesGenerating(prefix, REF_WIDTH, number);
      next := Generated(prefix, REF_WIDTH, ToNat(LastPart(candidate)).value + 1);
    }

    /** The retry loop: the first free number from the generated one on, 50 steps at most. */
    method FirstFreeRef(prefix: string) returns (candidate: string, ghost first: nat, ghost number: nat)
      requires EndsInDash(prefix)
      ensures IsNextNumber(docRefs, prefix, first)
      ensures first <= number <= first + MAX_ATTEMPTS && candidate == Generated(prefix, REF_WIDTH, number)
      ensures AllTaken(docRefs, prefix, first, number)
      ensures candidate in docRefs ==> number == first + MAX_ATTEMPTS
    {
      candidate, first := GenerateNext(docRefs, prefix, REF_WIDTH);
      number := first;
      var attempt := 0;
      while candidate in docRefs && attempt < MAX_ATTEMPTS
        invariant attempt <= MAX_ATTEMPTS && number == first + attempt
        invariant candidate == Generated(prefix, REF_WIDTH, number)
        invariant AllTaken(docRefs, prefix, first, number)
      {
        OneMoreTaken(docRefs, prefix, first, number);
        candidate := NextAfter(prefix, candidate, number);
        number := number + 1;
        attempt := attempt + 1;
      }
    }

    /**
     The reference a post will carry: the given one if it is free, else the first free
     number. It is taken only when all 51 numbers tried are taken, and when only
     generated references are on file the very first number is free.
     */
    method ChooseRef(given: string, prefix: string) returns (ref: string, ghost first: nat)
      requires EndsInDash(prefix)
      ensures IsNextNumber(docRefs, prefix, first)
      ensures FreeAsGiven(docRefs, given) ==> ref == Strip(given)
      ensures !FreeAsGiven(docRefs, given) ==>
        && FirstFree(docRefs, prefix, first, ref)
        && (ref in docRefs <==> AllTaken(docRefs, prefix, first, first + MAX_ATTEMPTS + 1))
        && (OnlyGenerated(docRefs, prefix, REF_WIDTH) ==>
              ref == Generated(prefix, REF_WIDTH, first) && ref !in docRefs)
    {
      var candidate := Strip(given);
      ghost var number: nat;
      ref, first, number := FirstFreeRef(prefix);
      FirstFreeIsFree(docRefs, prefix, first, number);
      assert FirstFree(docRefs, prefix, first, ref);
      if candidate != "" && candidate !in docRefs {
        ref := candidate;
      }
    }

    /**
     `post`: the reference column is unique, so a record whose reference is taken after
     all is rejected. `valid` is whether the other fields validate.
     */
    method Post(given: string, order: string, date: string, valid: bool) returns (result: Posted)
      modifies this
      ensures result.Stored? ==>
        valid && result.ref !in old(docRefs) && docRefs == old(docRefs) + {result.ref}
        && exists wo :: StoredOrder(old(workOrders), order, date, wo) && workOrders == old(workOrders) + {wo}
      ensures result.Rejected? ==> docRefs == old(docRefs) && workOrders == old(workOrders)
      ensures valid && FreeAsGiven(old(docRefs), given) ==> result == Stored(Strip(given))
      ensures valid && !FreeAsGiven(old(docRefs), given) ==>
        exists first: nat :: IsNextNumber(old(docRefs), DocPrefix(date), first)
          && (result.Rejected? <==> AllTaken(old(docRefs), DocPrefix(date), first, first + MAX_ATTEMPTS + 1))
          && (result.Stored? ==> FirstFree(old(docRefs), DocPrefix(date), first, result.ref))
      ensures valid && !FreeAsGiven(old(docRefs), given) && OnlyGenerated(old(docRefs), DocPrefix(date), REF_WIDTH) ==>
        && result.Stored?
        && ComesLast(old(docRefs), DocPrefix(date), result.ref)
        && OnlyGenerated(docRefs, DocPrefix(date), REF_WIDTH)
    {
      var prefix := DocPrefix(date);
      ghost var first: nat;
      var ref: string;
      ref, first := ChooseRef(given, prefix);
      var wo := Strip(order);
      if wo == "" {
        ghost var number: nat;
        wo, number := GenerateDefaultWorkOrder(date);
      }
      assert StoredOrder(workOrders, order, date, wo);
      if !FreeAsGiven(docRefs, given) && OnlyGenerated(docRefs, prefix, REF_WIDTH) {
        FirstComesLast(docRefs, prefix, first);
      }
      if !valid || ref in docRefs {
        return Rejected;
      }
      docRefs := docRefs + {ref};
      workOrders := workOrders + {wo};
      result := Stored(ref);
    }
  }
}
