/**
 Hash chaining of audit records: each record's hash covers the previous one and the
 record itself, joined by colons. SHA-256 is a parameter, and every claim is of the form
 "the records agree, or these very payloads collide".
 */
module HashChain {
  import opened Options
  import opened Texts
  import opened Decimals

  type Hash = string -> string

  const ZEROS: string := Zeros(64)

  /** A record as the chain sees it: its text without the leading previous hash. */
  datatype Link = Link(body: string, prev: string, hash: string)

  /** Hexadecimal digests: never empty and free of colons. */
  ghost predicate IsDigest(H: Hash) {
    forall p :: H(p) != "" && NoColon(H(p))
  }

  /** Sixty-four zeros stand where there is no previous hash. */
  predicate IsStart(hash: string) {
    |hash| == 64 && forall i :: 0 <= i < 64 ==> hash[i] == '0'
  }

  function Payload(l: Link): string {
    l.prev + ":" + l.body
  }

  /** The hash the next record will refer to. */
  function Head(chain: seq<Link>): string {
    if chain == [] then ZEROS else chain[|chain| - 1].hash
  }

  /** Every record refers to its predecessor and carries the hash of its own payload. */
  predicate Valid(H: Hash, chain: seq<Link>) {
    chain == [] ||
    (var front, last := chain[..|chain| - 1], chain[|chain| - 1];
     Valid(H, front) && last.prev == Head(front) && last.hash == H(Payload(last)))
  }

  ghost predicate Collide(H: Hash, a: seq<Link>, b: seq<Link>, i: int, j: int) {
    0 <= i < |a| && 0 <= j < |b| && Payload(a[i]) != Payload(b[j]) && H(Payload(a[i])) == H(Payload(b[j]))
  }

  ghost predicate HitsZeros(H: Hash, chain: seq<Link>, i: int) {
    0 <= i < |chain| && H(Payload(chain[i])) == ZEROS
  }

  /** Two payloads of these chains differ but hash alike, or one hashes to the all-zero start. */
  ghost predicate Broken(H: Hash, a: seq<Link>, b: seq<Link>) {
    (exists i, j :: Collide(H, a, b, i, j)) || (exists i :: HitsZeros(H, a, i)) || (exists j :: HitsZeros(H, b, j))
  }

  predicate SameBodies(a: seq<Link>, b: seq<Link>) {
    |a| == |b| && forall i :: 0 <= i < |a| ==> a[i].body == b[i].body
  }

  lemma ZerosHaveNoColon()
    ensures NoColon(ZEROS)
  {
  }

  lemma BrokenFront(H: Hash, a: seq<Link>, b: seq<Link>)
    requires a != [] && b != [] && Broken(H, a[..|a| - 1], b[..|b| - 1])
    ensures Broken(H, a, b)
  {
    var a', b' := a[..|a| - 1], b[..|b| - 1];
    if i, j :| Collide(H, a', b', i, j) {
      assert Collide(H, a, b, i, j);
    } else if i :| HitsZeros(H, a', i) {
      assert HitsZeros(H, a, i);
    } else {
      var j :| HitsZeros(H, b', j);
      assert HitsZeros(H, b, j);
    }
  }

  /** Equal head hashes: the chains have the same records, or the hash is broken on them. */
  lemma {:induction false} HeadBindsBodies(H: Hash, a: seq<Link>, b: seq<Link>)
    requires IsDigest(H) && Valid(H, a) && Valid(H, b) && Head(a) == Head(b)
    ensures SameBodies(a, b) || Broken(H, a, b)
    decreases |a|
  {
    if a == [] && b == [] {
    } else if a == [] {
      assert HitsZeros(H, b, |b| - 1);
    } else if b == [] {
      assert HitsZeros(H, a, |a| - 1);
    } else {
      var la, lb := a[|a| - 1], b[|b| - 1];
      if Payload(la) == Payload(lb) {
        HeadIsColonFree(H, a[..|a| - 1]);
        HeadIsColonFree(H, b[..|b| - 1]);
        FirstColonSplits(la.prev, la.body, lb.prev, lb.body);
        HeadBindsBodies(H, a[..|a| - 1], b[..|b| - 1]);
        if Broken(H, a[..|a| - 1], b[..|b| - 1]) {
          BrokenFront(H, a, b);
        }
      } else {
        assert Collide(H, a, b, |a| - 1, |b| - 1);
      }
    }
  }

  lemma HeadIsColonFree(H: Hash, chain: seq<Link>)
    requires IsDigest(H) && Valid(H, chain)
    ensures NoColon(Head(chain))
  {
    ZerosHaveNoColon();
  }

  /** What the next record refers to: the latest hash there is, or zeros. */
  function LastHash(chain: seq<Link>): string {
    if chain != [] && chain[|chain| - 1].hash != "" then chain[|chain| - 1].hash else ZEROS
  }

  /** A record stamped with the latest hash continues its chain. */
  lemma StampContinues(H: Hash, chain: seq<Link>, l: Link)
    requires IsDigest(H) && Valid(H, chain) && l.prev == LastHash(chain) && l.hash == H(Payload(l))
    ensures Valid(H, chain + [l])
  {
    assert (chain + [l])[..|chain|] == chain;
    if chain != [] {
      assert chain[|chain| - 1].hash == H(Payload(chain[|chain| - 1]));
    }
  }

  // ---------------------------------------------------------------- what a body says

  function UserText(user: Option<nat>): string {
    if user.Some? then Print(user.value) else ""
  }

  function Joined(was: string, now: string): string {
    was + ":" + now
  }

  /** Texts with a colon between each two. */
  function Colons(parts: seq<string>): string
    requires parts != []
  {
    if |parts| == 1 then parts[0] else parts[0] + ":" + Colons(parts[1..])
  }

  lemma ColonsFirst(part: string, parts: seq<string>)
    requires parts != []
    ensures Colons([part] + parts) == part + ":" + Colons(parts)
  {
    assert ([part] + parts)[1..] == parts;
  }

  lemma ColonsOfTwo(a: string, b: string)
    ensures Colons([a, b]) == a + ":" + b
  {
    assert [a, b][1..] == [b];
  }

  lemma ColonsOfThree(a: string, b: string, c: string)
    ensures Colons([a, b, c]) == a + ":" + (b + ":" + c)
  {
    ColonsOfTwo(b, c);
    ColonsFirst(a, [b, c]);
    assert [a] + [b, c] == [a, b, c];
  }

  /** `{die}:{user}:{field}:{old}:{new}` */
  function DieBody(die: nat, user: Option<nat>, field: string, was: string, now: string): string {
    Print(die) + ":" + (UserText(user) + ":" + (field + ":" + Joined(was, now)))
  }

  /** The payload of a die record: the previous hash, die, user, field, old and new value, joined by colons. */
  lemma DiePayload(prev: string, die: nat, user: Option<nat>, field: string, was: string, now: string)
    ensures prev + ":" + DieBody(die, user, field, was, now)
         == Colons([prev, Print(die), if user.Some? then Print(user.value) else "", field, was, now])
  {
    ColonsOfThree(field, was, now);
    ColonsFirst(UserText(user), [field, was, now]);
    assert [UserText(user)] + [field, was, now] == [UserText(user), field, was, now];
    ColonsFirst(Print(die), [UserText(user), field, was, now]);
    assert [Print(die)] + [UserText(user), field, was, now] == [Print(die), UserText(user), field, was, now];
    ColonsFirst(prev, [Print(die), UserText(user), field, was, now]);
    assert [prev] + [Print(die), UserText(user), field, was, now]
        == [prev, Print(die), UserText(user), field, was, now];
  }

  lemma UserTextInjective(u: Option<nat>, v: Option<nat>)
    requires UserText(u) == UserText(v)
    ensures u == v
  {
    if u.Some? && v.Some? {
      PrintInjective(u.value, v.value);
    }
  }

  lemma UserTextHasNoColon(u: Option<nat>)
    ensures NoColon(UserText(u))
  {
    if u.Some? {
      DigitsHaveNoColon(Print(u.value));
    }
  }

  /** A body is read back uniquely up to the pair of values, whose joined text it fixes. */
  lemma DieBodyParses(d1: nat, u1: Option<nat>, f1: string, o1: string, n1: string,
                      d2: nat, u2: Option<nat>, f2: string, o2: string, n2: string)
    requires NoColon(f1) && NoColon(f2)
    requires DieBody(d1, u1, f1, o1, n1) == DieBody(d2, u2, f2, o2, n2)
    ensures d1 == d2 && u1 == u2 && f1 == f2 && Joined(o1, n1) == Joined(o2, n2)
  {
    DigitsHaveNoColon(Print(d1));
    DigitsHaveNoColon(Print(d2));
    var r1, r2 := f1 + ":" + Joined(o1, n1), f2 + ":" + Joined(o2, n2);
    FirstColonSplits(Print(d1), UserText(u1) + ":" + r1, Print(d2), UserText(u2) + ":" + r2);
    PrintInjective(d1, d2);
    UserTextHasNoColon(u1);
    UserTextHasNoColon(u2);
    FirstColonSplits(UserText(u1), r1, UserText(u2), r2);
    UserTextInjective(u1, u2);
    FirstColonSplits(f1, Joined(o1, n1), f2, Joined(o2, n2));
  }

  /** `{type}:{id}:{action}:{field}:{old}:{new}:{user}`, with absent texts written as empty. */
  function MachineBody(kind: string, id: nat, action: string, field: string, was: string, now: string,
      user: Option<nat>): string {
    kind + ":" + (Print(id) + ":" + (action + ":" + (field + ":" + (Joined(was, now) + ":" + UserText(user)))))
  }

  lemma LastThree(was: string, now: string, user: string)
    ensures Joined(was, now) + ":" + user == Colons([was, now, user])
  {
    ColonsOfThree(was, now, user);
    assert was + ":" + now + ":" + user == was + ":" + (now + ":" + user);
  }

  lemma ColonsOfFourMore(a: string, b: string, c: string, d: string, rest: seq<string>)
    requires rest != []
    ensures Colons([a, b, c, d] + rest) == a + ":" + (b + ":" + (c + ":" + (d + ":" + Colons(rest))))
  {
    ColonsFirst(d, rest);
    ColonsFirst(c, [d] + rest);
    ColonsFirst(b, [c] + ([d] + rest));
    ColonsFirst(a, [b] + ([c] + ([d] + rest)));
    assert [a] + ([b] + ([c] + ([d] + rest))) == [a, b, c, d] + rest;
  }

  /** The payload of a machine record, in the same way. */
  lemma MachinePayload(prev: string, kind: string, id: nat, action: string, field: string, was: string, now: string,
                       user: Option<nat>)
    ensures prev + ":" + MachineBody(kind, id, action, field, was, now, user)
         == Colons([prev, kind, Print(id), action, field, was, now,
                    if user.Some? then Print(user.value) else ""])
  {
    var u := UserText(user);
    LastThree(was, now, u);
    ColonsOfFourMore(kind, Print(id), action, field, [was, now, u]);
    ColonsFirst(prev, [kind, Print(id), action, field] + [was, now, u]);
    assert [prev] + ([kind, Print(id), action, field] + [was, now, u])
        == [prev, kind, Print(id), action, field, was, now, u];
  }

  lemma MachineBodyParses(k1: string, i1: nat, a1: string, f1: string, o1: string, n1: string, u1: Option<nat>,
                          k2: string, i2: nat, a2: string, f2: string, o2: string, n2: string, u2: Option<nat>)
    requires NoColon(k1) && NoColon(k2) && NoColon(a1) && NoColon(a2) && NoColon(f1) && NoColon(f2)
    requires MachineBody(k1, i1, a1, f1, o1, n1, u1) == MachineBody(k2, i2, a2, f2, o2, n2, u2)
    ensures k1 == k2 && i1 == i2 && a1 == a2 && f1 == f2 && Joined(o1, n1) == Joined(o2, n2) && u1 == u2
  {
    DigitsHaveNoColon(Print(i1));
    DigitsHaveNoColon(Print(i2));
    var v1, v2 := Joined(o1, n1) + ":" + UserText(u1), Joined(o2, n2) + ":" + UserText(u2);
    FirstColonSplits(k1, Print(i1) + ":" + (a1 + ":" + (f1 + ":" + v1)), k2,
        Print(i2) + ":" + (a2 + ":" + (f2 + ":" + v2)));
    FirstColonSplits(Print(i1), a1 + ":" + (f1 + ":" + v1), Print(i2), a2 + ":" + (f2 + ":" + v2));
    PrintInjective(i1, i2);
    FirstColonSplits(a1, f1 + ":" + v1, a2, f2 + ":" + v2);
    FirstColonSplits(f1, v1, f2, v2);
    UserTextHasNoColon(u1);
    UserTextHasNoColon(u2);
    LastColonSplits(Joined(o1, n1), UserText(u1), Joined(o2, n2), UserText(u2));
    UserTextInjective(u1, u2);
  }

  /**
   The joined text alone fixes the two values exactly when neither contains a colon: with
   a colon in either, another split of the same text is another pair.
   */
  lemma JoinedFixesValuesIff(was: string, now: string)
    ensures (forall w, n :: Joined(w, n) == Joined(was, now) ==> w == was && n == now)
            <==> NoColon(was) && NoColon(now)
  {
    if NoColon(was) && NoColon(now) {
      forall w, n | Joined(w, n) == Joined(was, now) ensures w == was && n == now {
        OneColonOnly(was, now, w, n);
      }
    } else if !NoColon(was) {
      var i :| 0 <= i < |was| && was[i] == ':';
      assert Joined(was[..i], was[i + 1..] + ":" + now) == Joined(was, now) by {
        assert was == was[..i] + ":" + was[i + 1..];
      }
    } else {
      var i :| 0 <= i < |now| && now[i] == ':';
      assert Joined(was + ":" + now[..i], now[i + 1..]) == Joined(was, now) by {
        assert now == now[..i] + ":" + now[i + 1..];
      }
    }
  }

  lemma OneColonOnly(was: string, now: string, w: string, n: string)
    requires NoColon(was) && NoColon(now) && Joined(w, n) == Joined(was, now)
    ensures w == was && n == now
  {
    ColonAt(Joined(was, now), was, now);
    ColonAt(Joined(was, now), w, n);
  }

  /** A record whose old value has a colon can pass for another with the very same hash. */
  lemma ColonsAreAmbiguous(die: nat, user: Option<nat>)
    ensures DieBody(die, user, "remarks", "a:b", "c") == DieBody(die, user, "remarks", "a", "b:c")
  {
    assert Joined("a:b", "c") == "a:b:c" == Joined("a", "b:c");
  }
}
