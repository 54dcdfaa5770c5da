/** The chained log of machines, sets, categories and racks, one chain per entity. */
module MachineLog {
  import opened Options
  import opened Texts
  import opened Decimals
  import opened HashChain

  datatype MachineRow = MachineRow(
    kind: string, id: nat, action: string, field: Option<string>, was: Option<string>, now: Option<string>,
    user: Option<nat>, prev: string, hash: string)

  function OrEmpty(s: Option<string>): string {
    if s.Some? then s.value else ""
  }

  function BodyOf(r: MachineRow): string {
    MachineBody(r.kind, r.id, r.action, OrEmpty(r.field), OrEmpty(r.was), OrEmpty(r.now), r.user)
  }

  function LinkOf(r: MachineRow): Link {
    Link(BodyOf(r), r.prev, r.hash)
  }

  function RowsOf(history: seq<MachineRow>, kind: string, id: nat): seq<MachineRow> {
    if history == [] then []
    else
      var rest, last := RowsOf(history[..|history| - 1], kind, id), history[|history| - 1];
      if last.kind == kind && last.id == id then rest + [last] else rest
  }

  function ChainOf(rows: seq<MachineRow>): (chain: seq<Link>)
    ensures |chain| == |rows|
    ensures forall i :: 0 <= i < |rows| ==> chain[i] == LinkOf(rows[i])
  {
    seq(|rows|, i requires 0 <= i < |rows| => LinkOf(rows[i]))
  }

  ghost predicate Chained(H: Hash, history: seq<MachineRow>) {
    forall kind, id :: Valid(H, ChainOf(RowsOf(history, kind, id)))
  }

  /** Kinds and actions are fixed choices and field names identifiers: none has a colon. */
  predicate PlainNames(r: MachineRow) {
    NoColon(r.kind) && NoColon(r.action) && NoColon(OrEmpty(r.field))
  }

  /** What an equal head hash says about two chains; absent and empty texts are not told apart. */
  lemma HeadBindsRecords(H: Hash, a: seq<MachineRow>, b: seq<MachineRow>)
    requires IsDigest(H) && Valid(H, ChainOf(a)) && Valid(H, ChainOf(b)) && Head(ChainOf(a)) == Head(ChainOf(b))
    requires (forall r :: r in a ==> PlainNames(r)) && (forall r :: r in b ==> PlainNames(r))
    ensures Broken(H, ChainOf(a), ChainOf(b)) ||
            (|a| == |b| && forall i :: 0 <= i < |a| ==>
               a[i].kind == b[i].kind && a[i].id == b[i].id && a[i].action == b[i].action && a[i].user == b[i].user
               && OrEmpty(a[i].field) == OrEmpty(b[i].field)
               && Joined(OrEmpty(a[i].was), OrEmpty(a[i].now)) == Joined(OrEmpty(b[i].was), OrEmpty(b[i].now)))
  {
    HeadBindsBodies(H, ChainOf(a), ChainOf(b));
    if SameBodies(ChainOf(a), ChainOf(b)) {
      forall i | 0 <= i < |a|
        ensures a[i].kind == b[i].kind && a[i].id == b[i].id && a[i].action == b[i].action && a[i].user == b[i].user
                && OrEmpty(a[i].field) == OrEmpty(b[i].field)
                && Joined(OrEmpty(a[i].was), OrEmpty(a[i].now)) == Joined(OrEmpty(b[i].was), OrEmpty(b[i].now))
      {
        assert ChainOf(a)[i].body == ChainOf(b)[i].body;
        assert a[i] in a && b[i] in b;
        MachineBodyParses(
          a[i].kind, a[i].id, a[i].action, OrEmpty(a[i].field), OrEmpty(a[i].was), OrEmpty(a[i].now), a[i].user,
          b[i].kind, b[i].id, b[i].action, OrEmpty(b[i].field), OrEmpty(b[i].was), OrEmpty(b[i].now), b[i].user);
      }
    }
  }

  /** What `save` stores: a record without a hash is linked to its entity's latest one. */
  function Stamped(H: Hash, history: seq<MachineRow>, r: MachineRow): MachineRow {
    if r.hash != "" then r
    else
      var prev := LastHash(ChainOf(RowsOf(history, r.kind, r.id)));
      r.(prev := prev, hash := H(prev + ":" + BodyOf(r)))
  }

  lemma RowsOfAppend(history: seq<MachineRow>, s: MachineRow, kind: string, id: nat)
    ensures RowsOf(history + [s], kind, id)
         == if kind == s.kind && id == s.id then RowsOf(history, kind, id) + [s] else RowsOf(history, kind, id)
  {
    assert (history + [s])[..|history|] == history;
  }

  lemma ChainAppend(rows: seq<MachineRow>, s: MachineRow)
    ensures ChainOf(rows + [s]) == ChainOf(rows) + [LinkOf(s)]
  {
  }

  lemma StampedKeepsChain(H: Hash, history: seq<MachineRow>, r: MachineRow, kind: string, id: nat)
    requires IsDigest(H) && Valid(H, ChainOf(RowsOf(history, kind, id))) && r.hash == ""
    ensures Valid(H, ChainOf(RowsOf(history + [Stamped(H, history, r)], kind, id)))
  {
    var s := Stamped(H, history, r);
    RowsOfAppend(history, s, kind, id);
    if kind == r.kind && id == r.id {
      StampContinues(H, ChainOf(RowsOf(history, kind, id)), LinkOf(s));
      ChainAppend(RowsOf(history, kind, id), s);
    }
  }

  /** A saved record continues the chain of its entity and no other. */
  lemma StampedExtendsChain(H: Hash, history: seq<MachineRow>, r: MachineRow)
    requires IsDigest(H) && Chained(H, history) && r.hash == ""
    ensures Chained(H, history + [Stamped(H, history, r)])
  {
    forall kind, id ensures Valid(H, ChainOf(RowsOf(history + [Stamped(H, history, r)], kind, id))) {
      assert Valid(H, ChainOf(RowsOf(history, kind, id)));
      StampedKeepsChain(H, history, r, kind, id);
    }
  }

  /** `j` is the place of the latest record of an entity. */
  ghost predicate LatestAt(history: seq<MachineRow>, kind: string, id: nat, j: nat) {
    && j < |history| && history[j].kind == kind && history[j].id == id
    && forall i :: j < i < |history| ==> history[i].kind != kind || history[i].id != id
  }

  lemma {:induction false} LatestEndsChain(history: seq<MachineRow>, kind: string, id: nat, j: nat)
    requires LatestAt(history, kind, id, j)
    ensures var rows := RowsOf(history, kind, id); rows != [] && rows[|rows| - 1] == history[j]
  {
    if j < |history| - 1 {
      LatestEndsChain(history[..|history| - 1], kind, id, j);
    }
  }

  lemma {:induction false} NoneNoChain(history: seq<MachineRow>, kind: string, id: nat)
    requires forall i :: 0 <= i < |history| ==> history[i].kind != kind || history[i].id != id
    ensures RowsOf(history, kind, id) == []
  {
    if history != [] {
      NoneNoChain(history[..|history| - 1], kind, id);
    }
  }

  /** A record is linked to its chain's latest record, or to the start. */
  lemma StampFollowsLatest(H: Hash, history: seq<MachineRow>, r: MachineRow, j: nat)
    requires r.hash == ""
    requires LatestAt(history, r.kind, r.id, j)
             || forall i :: 0 <= i < |history| ==> history[i].kind != r.kind || history[i].id != r.id
    ensures var s := Stamped(H, history, r);
            && s == r.(prev := s.prev, hash := s.hash) && s.hash == H(s.prev + ":" + BodyOf(r))
            && (if LatestAt(history, r.kind, r.id, j) && history[j].hash != "" then s.prev == history[j].hash
                else IsStart(s.prev))
  {
    if LatestAt(history, r.kind, r.id, j) {
      LatestEndsChain(history, r.kind, r.id, j);
    } else {
      NoneNoChain(history, r.kind, r.id);
    }
  }

  /**
   The hash a record is stored with covers, joined by colons, the hash of its entity's
   latest record - or 64 zeros - and its kind, id, action, field, both values and user.
   */
  lemma StampCoversRecord(H: Hash, history: seq<MachineRow>, r: MachineRow, j: nat)
    requires r.hash == ""
    requires LatestAt(history, r.kind, r.id, j)
             || forall i :: 0 <= i < |history| ==> history[i].kind != r.kind || history[i].id != r.id
    ensures var s := Stamped(H, history, r);
            && s == r.(prev := s.prev, hash := s.hash)
            && (if LatestAt(history, r.kind, r.id, j) && history[j].hash != "" then s.prev == history[j].hash
                else IsStart(s.prev))
            && s.hash == H(Colons([s.prev, r.kind, Print(r.id), r.action, OrEmpty(r.field), OrEmpty(r.was),
                                   OrEmpty(r.now), if r.user.Some? then Print(r.user.value) else ""]))
  {
    MachinePayload(Stamped(H, history, r).prev, r.kind, r.id, r.action, OrEmpty(r.field), OrEmpty(r.was),
                   OrEmpty(r.now), r.user);
    StampFollowsLatest(H, history, r, j);
  }

  class MachineTrail {
    const sha256: Hash
    var history: seq<MachineRow>

    constructor (sha256: Hash)
      ensures this.sha256 == sha256 && history == []
    {
      this.sha256, history := sha256, [];
    }

    /** `MachineHistory.save`: a new record keeps every entity's chain valid. */
    method SaveHistory(r: MachineRow)
      modifies this`history
      ensures history == old(history) + [Stamped(sha256, old(history), r)]
      ensures IsDigest(sha256) && Chained(sha256, old(history)) && r.hash == "" ==> Chained(sha256, history)
    {
      var stored := r;
      if r.hash == "" {
        var mine := RowsOf(history, r.kind, r.id);
        var prev := ZEROS;
        if mine != [] && mine[|mine| - 1].hash != "" {
          prev := mine[|mine| - 1].hash;
        }
        stored := r.(prev := prev, hash := sha256(prev + ":" + BodyOf(r)));
      }
      if IsDigest(sha256) && Chained(sha256, history) && r.hash == "" {
        StampedExtendsChain(sha256, history, r);
      }
      history := history + [stored];
    }
  }
}
