/** Moving a conversation in the sidebar (shared/localConversationPlacement.ts). */
module Placement {

  import opened Options

  /** `title` stands for every field the move does not look at. */
  datatype Item = Item(id: string, projectId: Option<string>, pinnedAt: Option<string>, sortOrder: int, title: string)

  datatype Section = Pinned | Recent | Project(projectId: string)

  datatype Position = Before | After

  datatype Move = Move(conversationId: string, targetId: Option<string>, section: Section, position: Position)

  datatype Result = Ordered(items: seq<Item>) | OrderInvalid

  predicate Truthy(x: Option<string>) {
    x.Some? && x.value != ""
  }

  function SectionOf(item: Item, projects: set<string>): Section {
    if Truthy(item.pinnedAt) then Pinned
    else if Truthy(item.projectId) && item.projectId.value in projects then Project(item.projectId.value)
    else Recent
  }

  /** The index of the first item with this id, or -1. */
  function IndexOf(items: seq<Item>, id: string): (k: int)
    ensures -1 <= k < |items|
    ensures k >= 0 ==> items[k].id == id
    ensures k == -1 <==> forall i :: 0 <= i < |items| ==> items[i].id != id
  {
    if items == [] then -1
    else if items[0].id == id then 0
    else var k := IndexOf(items[1..], id); if k == -1 then -1 else k + 1
  }

  /** The first and the last item of a section, or -1. */
  function FirstIn(items: seq<Item>, section: Section, projects: set<string>): (k: int)
    ensures -1 <= k < |items|
    ensures k >= 0 ==> SectionOf(items[k], projects) == section
    ensures forall i :: 0 <= i < |items| && SectionOf(items[i], projects) == section ==> 0 <= k <= i
  {
    if items == [] then -1
    else if SectionOf(items[0], projects) == section then 0
    else var k := FirstIn(items[1..], section, projects); if k == -1 then -1 else k + 1
  }

  function LastIn(items: seq<Item>, section: Section, projects: set<string>): (k: int)
    ensures -1 <= k < |items|
    ensures k >= 0 ==> SectionOf(items[k], projects) == section
    ensures forall i :: 0 <= i < |items| && SectionOf(items[i], projects) == section ==> i <= k
  {
    if items == [] then -1
    else if SectionOf(items[|items| - 1], projects) == section then |items| - 1
    else LastIn(items[..|items| - 1], section, projects)
  }

  function Without(items: seq<Item>, id: string): seq<Item> {
    if items == [] then []
    else if items[0].id == id then Without(items[1..], id)
    else [items[0]] + Without(items[1..], id)
  }

  lemma {:induction false} WithoutMembers(items: seq<Item>, id: string)
    ensures forall x :: x in Without(items, id) <==> x in items && x.id != id
  {
    if items != [] {
      WithoutMembers(items[1..], id);
      assert forall x :: x in items <==> x == items[0] || x in items[1..];
    }
  }

  function Renumbered(items: seq<Item>): (r: seq<Item>)
    ensures |r| == |items| && forall k :: 0 <= k < |items| ==> r[k] == items[k].(sortOrder := k)
  {
    seq(|items|, k requires 0 <= k < |items| => items[k].(sortOrder := k))
  }

  function Moved(source: Item, section: Section, now: string): Item {
    source.(pinnedAt := if !section.Pinned? then None
                        else if Truthy(source.pinnedAt) then source.pinnedAt else Some(now),
            projectId := match section case Pinned => source.projectId case Project(p) => Some(p) case Recent => None)
  }

  /** Where in the rest the moved item goes. */
  function Slot(rest: seq<Item>, projects: set<string>, move: Move): (k: int)
    requires move.targetId.Some? ==> IndexOf(rest, move.targetId.value) >= 0
    ensures 0 <= k <= |rest|
  {
    if move.targetId.Some? then
      IndexOf(rest, move.targetId.value) + (if move.position == After then 1 else 0)
    else if LastIn(rest, move.section, projects) == -1 then |rest|
    else if move.position == Before then FirstIn(rest, move.section, projects)
    else LastIn(rest, move.section, projects) + 1
  }

  predicate IsValid(items: seq<Item>, projects: set<string>, move: Move) {
    && IndexOf(items, move.conversationId) >= 0
    && move.targetId != Some(move.conversationId)
    && (move.section.Project? ==> move.section.projectId in projects)
    && (move.targetId.Some? ==> IndexOf(items, move.targetId.value) >= 0
                                && SectionOf(items[IndexOf(items, move.targetId.value)], projects) == move.section)
  }

  /** A pinned item is in no other section; an unpinned one is in that of its project, if the project is known and
    its id not empty, and among the recent ones otherwise. */
  predicate InSection(item: Item, section: Section, projects: set<string>) {
    var pinned := item.pinnedAt.Some? && item.pinnedAt.value != "";
    match section
    case Pinned => pinned
    case Project(id) => !pinned && id != "" && id in projects && item.projectId == Some(id)
    case Recent =>
      !pinned && (item.projectId.None? || item.projectId.value == "" || item.projectId.value !in projects)
  }

  lemma SectionIff(item: Item, section: Section, projects: set<string>)
    ensures SectionOf(item, projects) == section <==> InSection(item, section, projects)
  {
  }

  /** The conversation is there; a project to move it to is known; and the target, if there is one, is another
    conversation and its item, the first with that id, lies in the section asked for. */
  ghost predicate CanMove(items: seq<Item>, projects: set<string>, move: Move) {
    && (exists i :: 0 <= i < |items| && items[i].id == move.conversationId)
    && (forall id :: move.section == Project(id) ==> id in projects)
    && (move.targetId.Some? ==>
          && move.targetId.value != move.conversationId
          && exists j :: 0 <= j < |items| && items[j].id == move.targetId.value
               && (forall i :: 0 <= i < j ==> items[i].id != move.targetId.value)
               && InSection(items[j], move.section, projects))
  }

  /** Exactly which moves succeed. */
  lemma MoveSucceedsIff(items: seq<Item>, projects: set<string>, move: Move, now: string)
    ensures Placed(items, projects, move, now).Ordered? <==> CanMove(items, projects, move)
  {
    hide IndexOf, SectionOf, InSection, Without, Slot, Moved;
    assert IsValid(items, projects, move) <==> Placed(items, projects, move, now).Ordered?;
    if move.targetId.Some? {
      var target := move.targetId.value;
      var k := IndexOf(items, target);
      IndexOfIsFirst(items, target);
      if k >= 0 {
        SectionIff(items[k], move.section, projects);
      }
    }
  }

  lemma {:induction false} IndexOfIsFirst(items: seq<Item>, id: string)
    ensures forall i :: 0 <= i < IndexOf(items, id) ==> items[i].id != id
  {
    if items != [] {
      IndexOfIsFirst(items[1..], id);
    }
  }

  lemma TargetStays(items: seq<Item>, projects: set<string>, move: Move)
    requires IsValid(items, projects, move)
    ensures move.targetId.Some? ==> IndexOf(Without(items, move.conversationId), move.targetId.value) >= 0
  {
    if move.targetId.Some? {
      WithoutMembers(items, move.conversationId);
      assert items[IndexOf(items, move.targetId.value)] in Without(items, move.conversationId);
    }
  }

  /** The source's placeConversation. */
  method PlaceConversation(items: seq<Item>, projects: set<string>, move: Move, now: string) returns (result: Result)
    ensures result == Placed(items, projects, move, now)
    ensures result.OrderInvalid? <==> !CanMove(items, projects, move)
    ensures result.Ordered? && UniqueIds(items) ==> exists k :: Promises(items, projects, move, now, result.items, k)
  {
    MoveSucceedsIff(items, projects, move, now);
    hide CanMove;
    if !IsValid(items, projects, move) {
      return OrderInvalid;
    }
    hide Promises, Without, Slot, SectionOf, Renumbered, UniqueIds;
    if UniqueIds(items) {
      var k := MoveKeepsPromises(items, projects, move, now);
    }
    var source := items[IndexOf(items, move.conversationId)];
    var next := Without(items, move.conversationId);
    TargetStays(items, projects, move);
    var index := Slot(next, projects, move);
    next := next[..index] + [Moved(source, move.section, now)] + next[index..];
    result := Ordered(Renumbered(next));
  }

  function Placed(items: seq<Item>, projects: set<string>, move: Move, now: string): Result {
    if !IsValid(items, projects, move) then OrderInvalid
    else
      var source := items[IndexOf(items, move.conversationId)];
      var rest := Without(items, move.conversationId);
      TargetStays(items, projects, move);
      var k := Slot(rest, projects, move);
      Ordered(Renumbered(rest[..k] + [Moved(source, move.section, now)] + rest[k..]))
  }

  // ---------------------------------------------------------------- what a move does

  predicate UniqueIds(items: seq<Item>) {
    forall i, j :: 0 <= i < j < |items| ==> items[i].id != items[j].id
  }

  /** The same items in the same order, apart from their numbers. */
  predicate SameButNumbers(a: seq<Item>, b: seq<Item>) {
    |a| == |b| && forall k :: 0 <= k < |a| ==> a[k].(sortOrder := 0) == b[k].(sortOrder := 0)
  }

  lemma {:induction false} WithoutAbsent(items: seq<Item>, id: string)
    requires forall k :: 0 <= k < |items| ==> items[k].id != id
    ensures Without(items, id) == items
  {
    if items != [] {
      WithoutAbsent(items[1..], id);
    }
  }

  lemma {:induction false} WithoutInserted(a: seq<Item>, x: Item, b: seq<Item>)
    requires forall k :: 0 <= k < |a| ==> a[k].id != x.id
    requires forall k :: 0 <= k < |b| ==> b[k].id != x.id
    ensures Without(a + [x] + b, x.id) == a + b
    decreases |a|
  {
    var all := a + [x] + b;
    if a == [] {
      assert all[0] == x && all[1..] == b && a + b == b;
      WithoutAbsent(b, x.id);
    } else {
      assert all[0] == a[0] && all[1..] == a[1..] + [x] + b;
      WithoutInserted(a[1..], x, b);
      assert a + b == [a[0]] + (a[1..] + b);
    }
  }

  /** Numbering does not change what is found or removed, nor where an item goes. */
  lemma {:induction false} NumbersDoNotMatter(a: seq<Item>, b: seq<Item>, projects: set<string>)
    requires SameButNumbers(a, b)
    ensures forall id :: IndexOf(a, id) == IndexOf(b, id)
    ensures forall id :: SameButNumbers(Without(a, id), Without(b, id))
    ensures forall section :: FirstIn(a, section, projects) == FirstIn(b, section, projects)
  {
    if a != [] {
      NumbersDoNotMatter(a[1..], b[1..], projects);
      forall id ensures SameButNumbers(Without(a, id), Without(b, id)) {
        assert SameButNumbers(Without(a[1..], id), Without(b[1..], id));
      }
    }
  }

  lemma {:induction false} NumbersDoNotMatterLast(a: seq<Item>, b: seq<Item>, section: Section, projects: set<string>)
    requires SameButNumbers(a, b)
    ensures LastIn(a, section, projects) == LastIn(b, section, projects)
  {
    if a != [] {
      var n := |a| - 1;
      if SectionOf(a[n], projects) != section {
        NumbersDoNotMatterLast(a[..n], b[..n], section, projects);
      }
    }
  }

  /** The numbered list with the moved item taken out again is the old list without it. */
  lemma RestIsKept(rest: seq<Item>, moved: Item, k: nat)
    requires k <= |rest| && forall i :: 0 <= i < |rest| ==> rest[i].id != moved.id
    ensures SameButNumbers(Without(Renumbered(rest[..k] + [moved] + rest[k..]), moved.id), rest)
  {
    hide Without;
    var all := rest[..k] + [moved] + rest[k..];
    NumbersDoNotMatter(Renumbered(all), all, {});
    WithoutInserted(rest[..k], moved, rest[k..]);
    assert rest[..k] + rest[k..] == rest;
  }

  /** What moving does to the item itself. Pinning keeps an earlier pin and the project for a later unpin. */
  predicate IsMoved(source: Item, section: Section, now: string, r: Item) {
    && r.title == source.title
    && match section
       case Pinned =>
         r.projectId == source.projectId
         && r.pinnedAt == (if Truthy(source.pinnedAt) then source.pinnedAt else Some(now))
       case Recent => r.projectId.None? && r.pinnedAt.None?
       case Project(id) => r.projectId == Some(id) && r.pinnedAt.None?
  }

  /** Everything a successful move promises, at the position `k` of the moved item. */
  ghost predicate Promises(items: seq<Item>, projects: set<string>, move: Move, now: string, r: seq<Item>, k: nat) {
    && k < |r| == |items|
    && r[k].id == move.conversationId
    && (forall source :: source in items && source.id == move.conversationId ==>
          IsMoved(source, move.section, now, r[k]))
    && (forall i :: 0 <= i < |r| ==> r[i].sortOrder == i)
    // the others keep their order and everything else
    && SameButNumbers(Without(r, move.conversationId), Without(items, move.conversationId))
    // next to the target, or first or last of the section
    && (move.targetId.Some? ==>
          if move.position == After then k > 0 && r[k - 1].id == move.targetId.value
          else k + 1 < |r| && r[k + 1].id == move.targetId.value)
    && (move.targetId.None? ==>
          && (forall i :: 0 <= i < |r| && i != k && InSection(r[i], move.section, projects) ==>
                if move.position == Before then k < i else i < k)
          && ((forall i :: 0 <= i < |r| && i != k ==> !InSection(r[i], move.section, projects)) ==> k == |r| - 1))
  }

  lemma {:induction false} WithoutLength(items: seq<Item>, id: string)
    requires UniqueIds(items)
    ensures |Without(items, id)| == |items| - (if IndexOf(items, id) >= 0 then 1 else 0)
    ensures UniqueIds(Without(items, id))
  {
    if items != [] {
      WithoutLength(items[1..], id);
      WithoutMembers(items[1..], id);
      if items[0].id == id {
        WithoutAbsent(items[1..], id);
      } else {
        var rest := Without(items[1..], id);
        assert forall i :: 0 <= i < |rest| ==> rest[i] in items[1..];
      }
    }
  }

  lemma MovedIsMoved(source: Item, section: Section, now: string, k: int)
    ensures var r := Moved(source, section, now).(sortOrder := k);
            IsMoved(source, section, now, r) && r.id == source.id == Moved(source, section, now).id
  {
  }

  lemma IndexOfUnique(items: seq<Item>, id: string)
    requires UniqueIds(items) && IndexOf(items, id) >= 0
    ensures forall x :: x in items && x.id == id ==> x == items[IndexOf(items, id)]
  {
  }

  lemma MoveKeepsPromises(items: seq<Item>, projects: set<string>, move: Move, now: string) returns (k: nat)
    requires UniqueIds(items) && IsValid(items, projects, move)
    ensures Placed(items, projects, move, now).Ordered?
    ensures Promises(items, projects, move, now, Placed(items, projects, move, now).items, k)
  {
    hide IsMoved, Moved, Without, IndexOf, FirstIn, LastIn, UniqueIds, SameButNumbers, Slot, SectionOf, InSection;
    var rest := Without(items, move.conversationId);
    var source := items[IndexOf(items, move.conversationId)];
    var moved := Moved(source, move.section, now);
    TargetStays(items, projects, move);
    WithoutLength(items, move.conversationId);
    WithoutMembers(items, move.conversationId);
    k := Slot(rest, projects, move);
    MovedIsMoved(source, move.section, now, k);
    RestIsKept(rest, moved, k);
    var r := Renumbered(rest[..k] + [moved] + rest[k..]);
    assert Placed(items, projects, move, now) == Ordered(r);
    IndexOfUnique(items, move.conversationId);
    assert r[k] == moved.(sortOrder := k);
    NeighboursAreRight(rest, projects, move, moved, k, r);
  }

  lemma NeighboursAreRight(rest: seq<Item>, projects: set<string>, move: Move, moved: Item, k: nat, r: seq<Item>)
    requires move.targetId.Some? ==> IndexOf(rest, move.targetId.value) >= 0
    requires k == Slot(rest, projects, move) && r == Renumbered(rest[..k] + [moved] + rest[k..])
    ensures move.targetId.Some? ==>
              if move.position == After then k > 0 && r[k - 1].id == move.targetId.value
              else k + 1 < |r| && r[k + 1].id == move.targetId.value
    ensures move.targetId.None? ==>
              && (forall i :: 0 <= i < |r| && i != k && InSection(r[i], move.section, projects) ==>
                    if move.position == Before then k < i else i < k)
              && ((forall i :: 0 <= i < |r| && i != k ==> !InSection(r[i], move.section, projects)) ==> k == |r| - 1)
  {
    hide IndexOf, FirstIn, LastIn;
    forall i | 0 <= i < |r|
      ensures InSection(r[i], move.section, projects) <==> SectionOf(r[i], projects) == move.section
    {
      SectionIff(r[i], move.section, projects);
    }
    hide InSection;
    assert forall i :: 0 <= i < k ==> r[i] == rest[i].(sortOrder := i);
    assert forall i :: k < i < |r| ==> r[i] == rest[i - 1].(sortOrder := i);
    if move.targetId.None? {
      var last := LastIn(rest, move.section, projects);
      if last >= 0 {
        var j := if last < k then last else last + 1;
        assert SectionOf(r[j], projects) == move.section;
      }
    }
  }

  /** The moved item lands in the requested section, except when that is a project whose id is empty. */
  lemma MovedIntoSectionIff(items: seq<Item>, projects: set<string>, move: Move, now: string, k: nat)
    requires UniqueIds(items) && IsValid(items, projects, move) && now != ""
    requires Promises(items, projects, move, now, Placed(items, projects, move, now).items, k)
    ensures InSection(Placed(items, projects, move, now).items[k], move.section, projects)
            <==> move.section != Project("")
  {
    hide IndexOf, Without, Slot, SectionOf, SameButNumbers, UniqueIds, Moved;
    var source := items[IndexOf(items, move.conversationId)];
    assert IsMoved(source, move.section, now, Placed(items, projects, move, now).items[k]);
  }

  /** Moving once more in the same way changes nothing. */
  lemma MovingTwiceIsMovingOnce(items: seq<Item>, projects: set<string>, move: Move, now: string, later: string)
    requires UniqueIds(items) && IsValid(items, projects, move) && now != ""
    ensures var once := Placed(items, projects, move, now).items;
            Placed(once, projects, move, later) == Ordered(once)
  {
    hide Without, IndexOf, FirstIn, LastIn, UniqueIds;
    var rest := Without(items, move.conversationId);
    var source := items[IndexOf(items, move.conversationId)];
    var moved := Moved(source, move.section, now);
    TargetStays(items, projects, move);
    WithoutMembers(items, move.conversationId);
    var k := Slot(rest, projects, move);
    var once := Renumbered(rest[..k] + [moved] + rest[k..]);
    FoundAgain(items, projects, move, rest, moved, k, once);
    RestIsKept(rest, moved, k);
    var rest2 := Without(once, move.conversationId);
    NumbersDoNotMatter(rest2, rest, projects);
    NumbersDoNotMatterLast(rest2, rest, move.section, projects);
    TargetStays(once, projects, move);
    assert Slot(rest2, projects, move) == k;
    hide Slot, SectionOf, IsValid;
    SameListAgain(rest, rest2, moved, Moved(once[k], move.section, later), k);
  }

  lemma SameListAgain(rest: seq<Item>, rest2: seq<Item>, moved: Item, moved2: Item, k: nat)
    requires SameButNumbers(rest2, rest) && k <= |rest| && moved2.(sortOrder := 0) == moved.(sortOrder := 0)
    ensures Renumbered(rest2[..k] + [moved2] + rest2[k..]) == Renumbered(rest[..k] + [moved] + rest[k..])
  {
    var a, b := rest2[..k] + [moved2] + rest2[k..], rest[..k] + [moved] + rest[k..];
    forall i | 0 <= i < |a| ensures a[i].(sortOrder := 0) == b[i].(sortOrder := 0) {
      var j := if i < k then i else i - 1;
      assert i != k ==> a[i] == rest2[j] && b[i] == rest[j];
    }
    forall i | 0 <= i < |a| ensures Renumbered(a)[i] == Renumbered(b)[i] {
      assert a[i].(sortOrder := 0).(sortOrder := i) == a[i].(sortOrder := i);
      assert b[i].(sortOrder := 0).(sortOrder := i) == b[i].(sortOrder := i);
    }
  }

  /** The same move is valid again, and finds the moved item at its new place. */
  lemma FoundAgain(items: seq<Item>, projects: set<string>, move: Move, rest: seq<Item>, moved: Item, k: nat,
                   once: seq<Item>)
    requires UniqueIds(items) && IsValid(items, projects, move) && rest == Without(items, move.conversationId)
    requires moved.id == move.conversationId && k <= |rest| && once == Renumbered(rest[..k] + [moved] + rest[k..])
    ensures IsValid(once, projects, move) && IndexOf(once, move.conversationId) == k
  {
    hide Without, IndexOf, SectionOf, UniqueIds;
    WithoutMembers(items, move.conversationId);
    WithoutLength(items, move.conversationId);
    MovedFound(rest, moved, k);
    if move.targetId.Some? {
      var target := items[IndexOf(items, move.targetId.value)];
      TargetFound(rest, moved, k, target);
      SectionIgnoresNumbers(once[IndexOf(once, target.id)], target, projects);
    }
  }

  lemma MovedFound(rest: seq<Item>, moved: Item, k: nat)
    requires k <= |rest| && forall x :: x in rest ==> x.id != moved.id
    ensures IndexOf(Renumbered(rest[..k] + [moved] + rest[k..]), moved.id) == k
  {
    hide IndexOf;
    var all := rest[..k] + [moved] + rest[k..];
    assert forall i :: 0 <= i < |all| && i != k ==> all[i] in rest;
    assert Renumbered(all)[k].id == moved.id;
  }

  lemma TargetFound(rest: seq<Item>, moved: Item, k: nat, target: Item)
    requires k <= |rest| && UniqueIds(rest) && target in rest && moved.id != target.id
    ensures var once := Renumbered(rest[..k] + [moved] + rest[k..]);
            var found := IndexOf(once, target.id);
            found >= 0 && once[found].(sortOrder := 0) == target.(sortOrder := 0)
  {
    hide IndexOf;
    var all := rest[..k] + [moved] + rest[k..];
    var i :| 0 <= i < |rest| && rest[i] == target;
    assert all[if i < k then i else i + 1] == target;
    var found := IndexOf(Renumbered(all), target.id);
    assert found >= 0 && found != k;
    assert all[found] == rest[if found < k then found else found - 1];
  }

  lemma SectionIgnoresNumbers(a: Item, b: Item, projects: set<string>)
    requires a.(sortOrder := 0) == b.(sortOrder := 0)
    ensures SectionOf(a, projects) == SectionOf(b, projects)
  {
  }
}
