/**
 The audit page's grouping of history items into transactions: the groups are a cover of the
 items by leaders at most five seconds away.
 */
module HistoryGrouping {
  import opened Options

  const WINDOW_MS: int := 5000

  datatype Item = Item(id: string, entityType: string, entityName: string, action: string,
                       fieldName: string, oldValue: string, newValue: string,
                       username: string, timestamp: string, ip: string, note: string)
  datatype Change = Change(fieldName: string, oldValue: string, newValue: string)
  datatype Group = Group(key: string, username: string, timestamp: string, ip: string, entityType: string,
                         entityName: string, action: string, note: string, changes: seq<Change>)

  /** When a timestamp is, in milliseconds, if it can be read; one that cannot is near nothing. */
  type Clock = string -> Option<int>

  predicate Near(clock: Clock, a: string, b: string) {
    clock(a).Some? && clock(b).Some? && -WINDOW_MS <= clock(a).value - clock(b).value <= WINDOW_MS
  }

  /** Whose change of what, and from where. */
  datatype Source = Source(username: string, entityName: string, entityType: string, ip: string)

  function SourceOf(g: Group): Source {
    Source(g.username, g.entityName, g.entityType, g.ip)
  }

  function ItemSource(item: Item): Source {
    Source(item.username, item.entityName, item.entityType, item.ip)
  }

  predicate Matches(clock: Clock, g: Group, item: Item) {
    SourceOf(g) == ItemSource(item) && Near(clock, g.timestamp, item.timestamp)
  }

  // ---------------------------------------------------------------- one item at a time

  predicate HasField(changes: seq<Change>, fieldName: string) {
    exists i :: 0 <= i < |changes| && changes[i].fieldName == fieldName
  }

  function ChangeOf(item: Item): Change {
    Change(item.fieldName, item.oldValue, item.newValue)
  }

  function Open(item: Item): Group {
    Group(item.id, item.username, item.timestamp, item.ip, item.entityType, item.entityName, item.action, item.note,
          if item.fieldName != "" then [ChangeOf(item)] else [])
  }

  function Absorb(g: Group, item: Item): Group {
    g.(changes := if item.fieldName != "" && !HasField(g.changes, item.fieldName)
                  then g.changes + [ChangeOf(item)] else g.changes,
       note := if g.note == "" then item.note else g.note)
  }

  /** The first group an item matches, or the number of groups. */
  function Find(clock: Clock, groups: seq<Group>, item: Item): (k: nat)
    ensures k <= |groups|
    ensures forall j :: 0 <= j < k ==> !Matches(clock, groups[j], item)
    ensures k < |groups| ==> Matches(clock, groups[k], item)
    decreases |groups|
  {
    if groups == [] then 0
    else
      var k := Find(clock, groups[..|groups| - 1], item);
      if k < |groups| - 1 || Matches(clock, groups[|groups| - 1], item) then k else |groups|
  }

  function Place(clock: Clock, groups: seq<Group>, item: Item): seq<Group> {
    var k := Find(clock, groups, item);
    if k < |groups| then groups[k := Absorb(groups[k], item)] else groups + [Open(item)]
  }

  function Grouped(clock: Clock, items: seq<Item>): seq<Group> {
    if items == [] then []
    else Place(clock, Grouped(clock, items[..|items| - 1]), items[|items| - 1])
  }

  /** The group item `i` ends up in. */
  function Home(clock: Clock, items: seq<Item>, i: nat): nat
    requires i < |items|
  {
    Find(clock, Grouped(clock, items[..i]), items[i])
  }

  // ---------------------------------------------------------------- what a group is made of

  /** The items of a group, in the order of the input. */
  function Members(clock: Clock, items: seq<Item>, k: nat): seq<Item> {
    if items == [] then []
    else
      var front := items[..|items| - 1];
      Members(clock, front, k) + if Home(clock, items, |items| - 1) == k then [items[|items| - 1]] else []
  }

  function FirstPerField(members: seq<Item>): seq<Change> {
    if members == [] then []
    else
      var before, last := FirstPerField(members[..|members| - 1]), members[|members| - 1];
      if last.fieldName != "" && !HasField(before, last.fieldName) then before + [ChangeOf(last)] else before
  }

  function FirstNote(members: seq<Item>): string {
    if members == [] then ""
    else
      var before := FirstNote(members[..|members| - 1]);
      if before != "" then before else members[|members| - 1].note
  }

  /** The group its members amount to: the leader's heading, each field's first change, the first note. */
  function Built(members: seq<Item>): Group
    requires members != []
  {
    var leader := members[0];
    Group(leader.id, leader.username, leader.timestamp, leader.ip, leader.entityType, leader.entityName, leader.action,
          FirstNote(members), FirstPerField(members))
  }

  lemma BuiltGrows(members: seq<Item>, item: Item)
    requires members != []
    ensures Built(members + [item]) == Absorb(Built(members), item)
  {
    assert (members + [item])[..|members|] == members;
  }

  lemma BuiltOpens(item: Item)
    ensures Built([item]) == Open(item)
  {
    var members := [item];
    assert members[..|members| - 1] == [];
    assert FirstPerField([]) == [] && FirstNote([]) == "";
  }

  ghost predicate AreBuilt(clock: Clock, items: seq<Item>, groups: seq<Group>) {
    && (forall k :: 0 <= k < |groups| ==>
          Members(clock, items, k) != [] && groups[k] == Built(Members(clock, items, k)))
    && (forall k: nat :: k >= |groups| ==> Members(clock, items, k) == [])
  }

  /** Every group is just what its members amount to. */
  lemma {:induction false} GroupsAreTheirMembers(clock: Clock, items: seq<Item>)
    ensures AreBuilt(clock, items, Grouped(clock, items))
  {
    if items != [] {
      var front, item := items[..|items| - 1], items[|items| - 1];
      GroupsAreTheirMembers(clock, front);
      var before := Grouped(clock, front);
      var h := Find(clock, before, item);
      PlacedIsBuilt(clock, items, before, h);
    }
  }

  lemma MembersGrow(clock: Clock, items: seq<Item>, k: nat)
    requires items != []
    ensures Members(clock, items, k)
         == if k == Home(clock, items, |items| - 1) then Members(clock, items[..|items| - 1], k) + [items[|items| - 1]]
            else Members(clock, items[..|items| - 1], k)
  {
  }

  lemma PlacedIsBuilt(clock: Clock, items: seq<Item>, before: seq<Group>, h: nat)
    requires items != [] && h == Home(clock, items, |items| - 1)
    requires before == Grouped(clock, items[..|items| - 1]) && AreBuilt(clock, items[..|items| - 1], before)
    ensures AreBuilt(clock, items, Place(clock, before, items[|items| - 1]))
  {
    var front, item := items[..|items| - 1], items[|items| - 1];
    var after := Place(clock, before, item);
    forall k: nat
      ensures k < |after| ==> Members(clock, items, k) != [] && after[k] == Built(Members(clock, items, k))
      ensures k >= |after| ==> Members(clock, items, k) == []
    {
      MembersGrow(clock, items, k);
      if k == h && h < |before| {
        BuiltGrows(Members(clock, front, h), item);
      } else if k == h {
        assert Members(clock, front, k) == [];
        assert Members(clock, items, k) == [item];
        BuiltOpens(item);
      }
    }
  }

  // ---------------------------------------------------------------- the cover

  /** Later items never take a group's heading away. */
  lemma {:induction false} HeadingsStay(clock: Clock, items: seq<Item>, n: nat, k: nat)
    requires n <= |items| && k < |Grouped(clock, items[..n])|
    ensures k < |Grouped(clock, items)|
    ensures var g, h := Grouped(clock, items[..n])[k], Grouped(clock, items)[k];
            h.(note := g.note, changes := g.changes) == g
    decreases |items|
  {
    if n == |items| {
      assert items[..n] == items;
    } else {
      assert items[..|items| - 1][..n] == items[..n];
      HeadingsStay(clock, items[..|items| - 1], n, k);
    }
  }

  /** Item `i` opens a group: none that was there matched it. */
  predicate Leads(clock: Clock, items: seq<Item>, i: nat)
    requires i < |items|
  {
    Home(clock, items, i) == |Grouped(clock, items[..i])|
  }

  lemma GroupedPrefix(clock: Clock, items: seq<Item>, i: nat)
    requires i < |items|
    ensures Grouped(clock, items[..i + 1]) == Place(clock, Grouped(clock, items[..i]), items[i])
  {
    assert items[..i + 1][..i] == items[..i];
  }

  /** The group and the item are of one user, entity and address. */
  predicate SameOrigin(g: Group, item: Item) {
    && g.username == item.username && g.ip == item.ip
    && g.entityType == item.entityType && g.entityName == item.entityName
  }

  /** Both times can be read and are at most five seconds apart. */
  predicate FiveSeconds(clock: Clock, a: string, b: string) {
    match (clock(a), clock(b))
    case (Some(x), Some(y)) => x - y <= 5000 && y - x <= 5000
    case _ => false
  }

  /** What placing an item does to its group. */
  lemma PlacedAtHome(clock: Clock, groups: seq<Group>, item: Item)
    ensures var k, after := Find(clock, groups, item), Place(clock, groups, item);
            && k < |after| && SameOrigin(after[k], item)
            && (k < |groups| ==> FiveSeconds(clock, after[k].timestamp, item.timestamp))
            && (k == |groups| ==> |after| == k + 1 && after[k] == Open(item))
  {
  }

  /** Every item is in a group of its user, entity and address, and near its leader unless it leads the group itself. */
  lemma EveryItemIsCovered(clock: Clock, items: seq<Item>, i: nat)
    requires i < |items|
    ensures var k, groups := Home(clock, items, i), Grouped(clock, items);
            && k < |groups| && SameOrigin(groups[k], items[i])
            && (Leads(clock, items, i) || FiveSeconds(clock, groups[k].timestamp, items[i].timestamp))
            && (items[i].fieldName != "" ==> HasField(groups[k].changes, items[i].fieldName))
  {
    var before, k := Grouped(clock, items[..i]), Home(clock, items, i);
    GroupedPrefix(clock, items, i);
    PlacedAtHome(clock, before, items[i]);
    HeadingsStay(clock, items, i + 1, k);
    if items[i].fieldName != "" {
      PlaceHasField(clock, before, items[i]);
      FieldsStay(clock, items, i + 1, k, items[i].fieldName);
    }
  }

  /** A group's heading is that of the one item that leads it. */
  lemma LeaderGivesHeading(clock: Clock, items: seq<Item>, i: nat)
    requires i < |items| && Leads(clock, items, i)
    ensures var k, groups := Home(clock, items, i), Grouped(clock, items);
            && k < |groups| && SameOrigin(groups[k], items[i]) && groups[k].key == items[i].id
            && groups[k].timestamp == items[i].timestamp && groups[k].action == items[i].action
    ensures forall j :: 0 <= j < |items| && j != i && Leads(clock, items, j) ==>
              Home(clock, items, j) != Home(clock, items, i)
  {
    var k := Home(clock, items, i);
    GroupedPrefix(clock, items, i);
    PlacedAtHome(clock, Grouped(clock, items[..i]), items[i]);
    HeadingsStay(clock, items, i + 1, k);
    forall j | 0 <= j < |items| && j != i && Leads(clock, items, j) ensures Home(clock, items, j) != k {
      if i < j {
        EarlierLeaderEarlierGroup(clock, items, i, j);
      } else {
        EarlierLeaderEarlierGroup(clock, items, j, i);
      }
    }
  }

  lemma OneMoreItem(clock: Clock, items: seq<Item>)
    requires items != []
    ensures |Grouped(clock, items[..|items| - 1])| <= |Grouped(clock, items)|
  {
  }

  lemma {:induction false} GroupsNeverFewer(clock: Clock, start: seq<Item>, items: seq<Item>)
    requires start <= items
    ensures |Grouped(clock, start)| <= |Grouped(clock, items)|
    decreases |items|
  {
    if |start| == |items| {
      assert start == items;
    } else {
      GroupsNeverFewer(clock, start, items[..|items| - 1]);
      OneMoreItem(clock, items);
    }
  }

  lemma ShorterPrefix(items: seq<Item>, i: nat, j: nat)
    requires i <= j <= |items|
    ensures items[..i] <= items[..j]
  {
  }

  lemma HomeIsThere(clock: Clock, items: seq<Item>, i: nat)
    requires i < |items|
    ensures Home(clock, items, i) < |Grouped(clock, items[..i + 1])|
  {
    GroupedPrefix(clock, items, i);
    PlacedAtHome(clock, Grouped(clock, items[..i]), items[i]);
  }

  lemma EarlierLeaderEarlierGroup(clock: Clock, items: seq<Item>, i: nat, j: nat)
    requires i < j < |items| && Leads(clock, items, i) && Leads(clock, items, j)
    ensures Home(clock, items, i) < Home(clock, items, j)
  {
    HomeIsThere(clock, items, i);
    ShorterPrefix(items, i + 1, j);
    GroupsNeverFewer(clock, items[..i + 1], items[..j]);
  }

  /** The items before the leader of group `k`. */
  lemma {:induction false} BeforeLeader(clock: Clock, items: seq<Item>, k: nat) returns (before: seq<Item>)
    requires k < |Grouped(clock, items)|
    ensures before < items && k == |Grouped(clock, before)| == Find(clock, Grouped(clock, before), items[|before|])
  {
    var front := items[..|items| - 1];
    if k < |Grouped(clock, front)| {
      before := BeforeLeader(clock, front, k);
    } else {
      before := front;
    }
  }

  /** Every group has its leader. */
  lemma EveryGroupIsLed(clock: Clock, items: seq<Item>, k: nat) returns (i: nat)
    requires k < |Grouped(clock, items)|
    ensures i < |items| && Leads(clock, items, i) && Home(clock, items, i) == k
  {
    var before := BeforeLeader(clock, items, k);
    i := |before|;
    assert items[..i] == before;
  }

  lemma PlaceHasField(clock: Clock, groups: seq<Group>, item: Item)
    ensures var k := Find(clock, groups, item);
            && k < |Place(clock, groups, item)|
            && (item.fieldName != "" ==> HasField(Place(clock, groups, item)[k].changes, item.fieldName))
  {
    var k := Find(clock, groups, item);
    var g := Place(clock, groups, item)[k];
    if item.fieldName != "" && (k == |groups| || !HasField(groups[k].changes, item.fieldName)) {
      assert g.changes[|g.changes| - 1] == ChangeOf(item);
    }
  }

  lemma {:induction false} FieldsStay(clock: Clock, items: seq<Item>, n: nat, k: nat, fieldName: string)
    requires n <= |items| && k < |Grouped(clock, items[..n])|
    requires HasField(Grouped(clock, items[..n])[k].changes, fieldName)
    ensures k < |Grouped(clock, items)| && HasField(Grouped(clock, items)[k].changes, fieldName)
    decreases |items|
  {
    if n == |items| {
      assert items[..n] == items;
    } else {
      var front := items[..|items| - 1];
      assert front[..n] == items[..n];
      FieldsStay(clock, front, n, k, fieldName);
      PlaceKeepsField(clock, Grouped(clock, front), items[|items| - 1], k, fieldName);
    }
  }

  lemma PlaceKeepsField(clock: Clock, groups: seq<Group>, item: Item, k: nat, fieldName: string)
    requires k < |groups| && HasField(groups[k].changes, fieldName)
    ensures k < |Place(clock, groups, item)| && HasField(Place(clock, groups, item)[k].changes, fieldName)
  {
    var i :| 0 <= i < |groups[k].changes| && groups[k].changes[i].fieldName == fieldName;
    assert Place(clock, groups, item)[k].changes[i] == groups[k].changes[i];
  }

  predicate SameHeading(g: Group, h: Group) {
    g.username == h.username && g.ip == h.ip && g.entityType == h.entityType && g.entityName == h.entityName
  }

  ghost predicate Apart(clock: Clock, groups: seq<Group>) {
    forall j, k :: 0 <= j < k < |groups| && SameHeading(groups[j], groups[k]) ==>
      !FiveSeconds(clock, groups[j].timestamp, groups[k].timestamp)
  }

  lemma PlaceKeepsApart(clock: Clock, groups: seq<Group>, item: Item)
    requires Apart(clock, groups)
    ensures Apart(clock, Place(clock, groups, item))
  {
    var k, after := Find(clock, groups, item), Place(clock, groups, item);
    assert forall j :: 0 <= j < |groups| ==>
      after[j].(note := groups[j].note, changes := groups[j].changes) == groups[j];
    if k == |groups| {
      forall j | 0 <= j < k && SameHeading(after[j], after[k])
        ensures !FiveSeconds(clock, after[j].timestamp, after[k].timestamp)
      {
        assert !Matches(clock, groups[j], item);
      }
    }
  }

  /** Two groups of one user, entity and address lead more than five seconds apart. */
  lemma {:induction false} LeadersAreApart(clock: Clock, items: seq<Item>)
    ensures Apart(clock, Grouped(clock, items))
  {
    if items != [] {
      LeadersAreApart(clock, items[..|items| - 1]);
      PlaceKeepsApart(clock, Grouped(clock, items[..|items| - 1]), items[|items| - 1]);
    }
  }

  // ---------------------------------------------------------------- each field's first change

  ghost predicate IsFirstWithField(members: seq<Item>, i: int, fieldName: string) {
    0 <= i < |members| && members[i].fieldName == fieldName && forall j :: 0 <= j < i ==>
        members[j].fieldName != fieldName
  }

  ghost predicate IsFirstChange(members: seq<Item>, c: Change) {
    exists i :: IsFirstWithField(members, i, c.fieldName)
                && members[i].oldValue == c.oldValue && members[i].newValue == c.newValue
  }

  lemma {:induction false} HasFieldIffMember(members: seq<Item>, fieldName: string)
    requires fieldName != ""
    ensures HasField(FirstPerField(members), fieldName)
        <==> exists i :: 0 <= i < |members| && members[i].fieldName == fieldName
  {
    if members != [] {
      var front, last := members[..|members| - 1], members[|members| - 1];
      HasFieldIffMember(front, fieldName);
      var before, kept := FirstPerField(front), FirstPerField(members);
      assert members == front + [last];
      if last.fieldName == fieldName && !HasField(before, fieldName) {
        assert kept[|kept| - 1].fieldName == fieldName;
      } else if i :| 0 <= i < |before| && before[i].fieldName == fieldName {
        assert kept[i] == before[i];
      }
    }
  }

  lemma FirstChangeOfLonger(front: seq<Item>, last: Item, c: Change)
    ensures IsFirstChange(front + [last], c) <==>
      IsFirstChange(front, c) || (ChangeOf(last) == c && forall j :: 0 <= j < |front| ==>
          front[j].fieldName != c.fieldName)
  {
    var members := front + [last];
    forall i | 0 <= i < |front| ensures IsFirstWithField(members, i, c.fieldName) == IsFirstWithField(front, i,
        c.fieldName) {
      assert forall j :: 0 <= j <= i ==> members[j] == front[j];
    }
    if i :| IsFirstWithField(front, i, c.fieldName) && ChangeOf(front[i]) == c {
      assert IsFirstWithField(members, i, c.fieldName) && members[i] == front[i];
    }
    if i :| IsFirstWithField(members, i, c.fieldName) && ChangeOf(members[i]) == c && i < |front| {
      assert IsFirstWithField(front, i, c.fieldName) && ChangeOf(front[i]) == c;
    }
    if ChangeOf(last) == c && forall j :: 0 <= j < |front| ==> front[j].fieldName != c.fieldName {
      assert IsFirstWithField(members, |front|, c.fieldName);
    }
  }

  /** The changes kept are, field by field, those of the first member with that field. */
  lemma {:induction false} KeptChangesAreFirst(members: seq<Item>, c: Change)
    requires c.fieldName != ""
    ensures c in FirstPerField(members) <==> IsFirstChange(members, c)
  {
    if members != [] {
      var front, last := members[..|members| - 1], members[|members| - 1];
      KeptChangesAreFirst(front, c);
      assert members == front + [last];
      FirstChangeOfLonger(front, last, c);
      HasFieldIffMember(front, c.fieldName);
    }
  }

  /** The changes come from the members at these places: each the first with its field, in their order. */
  ghost predicate FirstsAt(members: seq<Item>, places: seq<nat>, changes: seq<Change>) {
    && |places| == |changes|
    && (forall a, b :: 0 <= a < b < |places| ==> places[a] < places[b])
    && (forall a :: 0 <= a < |places| ==>
          IsFirstWithField(members, places[a], changes[a].fieldName)
          && members[places[a]].oldValue == changes[a].oldValue && members[places[a]].newValue == changes[a].newValue)
  }

  lemma FirstsOfLonger(front: seq<Item>, last: Item, places: seq<nat>, changes: seq<Change>)
    requires FirstsAt(front, places, changes)
    ensures FirstsAt(front + [last], places, changes)
    ensures (forall j :: 0 <= j < |front| ==> front[j].fieldName != last.fieldName) ==>
              FirstsAt(front + [last], places + [|front|], changes + [ChangeOf(last)])
  {
    forall a | 0 <= a < |places|
      ensures IsFirstWithField(front + [last], places[a], changes[a].fieldName)
      ensures (front + [last])[places[a]] == front[places[a]]
    {
      assert IsFirstWithField(front, places[a], changes[a].fieldName);
    }
  }

  /** The changes kept stand in the order in which their fields first occur among the members. */
  lemma {:induction false} KeptChangesAreInOrder(members: seq<Item>) returns (places: seq<nat>)
    ensures FirstsAt(members, places, FirstPerField(members))
  {
    if members == [] {
      places := [];
    } else {
      var front, last := members[..|members| - 1], members[|members| - 1];
      places := KeptChangesAreInOrder(front);
      assert members == front + [last];
      FirstsOfLonger(front, last, places, FirstPerField(front));
      if last.fieldName != "" && !HasField(FirstPerField(front), last.fieldName) {
        HasFieldIffMember(front, last.fieldName);
        places := places + [|front|];
      }
    }
  }

  /** No field is named twice, and none is blank. */
  ghost predicate NamesEachFieldOnce(changes: seq<Change>) {
    && (forall i :: 0 <= i < |changes| ==> changes[i].fieldName != "")
    && (forall i, j :: 0 <= i < j < |changes| ==> changes[i].fieldName != changes[j].fieldName)
  }

  lemma {:induction false} NoFieldTwice(members: seq<Item>)
    ensures NamesEachFieldOnce(FirstPerField(members))
  {
    if members != [] {
      NoFieldTwice(members[..|members| - 1]);
    }
  }

  ghost predicate IsFirstNote(members: seq<Item>, i: int, note: string) {
    0 <= i < |members| && members[i].note == note && forall j :: 0 <= j < i ==> members[j].note == ""
  }

  /** The note kept is the first one any member has. */
  lemma {:induction false} KeptNoteIsFirst(members: seq<Item>)
    ensures var note := FirstNote(members);
            if note == "" then forall i :: 0 <= i < |members| ==> members[i].note == ""
            else exists i :: IsFirstNote(members, i, note)
  {
    if members != [] {
      var front, last := members[..|members| - 1], members[|members| - 1];
      assert members == front + [last];
      KeptNoteIsFirst(front);
      if i :| IsFirstNote(front, i, FirstNote(front)) && FirstNote(front) != "" {
        assert IsFirstNote(members, i, FirstNote(front));
      } else {
        assert last.note != "" ==> IsFirstNote(members, |front|, last.note);
      }
    }
  }

  // ---------------------------------------------------------------- the loop

  method FindGroup(clock: Clock, groups: seq<Group>, item: Item) returns (k: nat)
    ensures k == Find(clock, groups, item)
  {
    k := 0;
    while k < |groups| && !Matches(clock, groups[k], item)
      invariant k <= |groups|
      invariant forall j :: 0 <= j < k ==> !Matches(clock, groups[j], item)
    {
      k := k + 1;
    }
  }

  method ContainsField(changes: seq<Change>, fieldName: string) returns (found: bool)
    ensures found == HasField(changes, fieldName)
  {
    for i := 0 to |changes|
      invariant forall j :: 0 <= j < i ==> changes[j].fieldName != fieldName
    {
      if changes[i].fieldName == fieldName {
        return true;
      }
    }
    return false;
  }

  method GroupHistoryItems(clock: Clock, items: seq<Item>) returns (groups: seq<Group>)
    ensures groups == Grouped(clock, items)
    ensures AreBuilt(clock, items, groups)
  {
    groups := [];
    for n := 0 to |items|
      invariant groups == Grouped(clock, items[..n])
    {
      assert items[..n + 1][..n] == items[..n];
      var item := items[n];
      var k := FindGroup(clock, groups, item);
      if k < |groups| {
        var g := groups[k];
        if item.fieldName != "" {
          var found := ContainsField(g.changes, item.fieldName);
          if !found {
            g := g.(changes := g.changes + [ChangeOf(item)]);
          }
        }
        if item.note != "" && g.note == "" {
          g := g.(note := item.note);
        }
        groups := groups[k := g];
      } else {
        groups := groups + [Open(item)];
      }
    }
    assert items[..|items|] == items;
    GroupsAreTheirMembers(clock, items);
  }
}
