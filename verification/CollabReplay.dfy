/**
  Replaying updates a second time on a case that has them already, as a client does that logs in while they are
  pending (case/collabd.cc:1560-1594, case/app/case.js:1868-1929): for which updates that changes nothing.
 */
module CollabReplay {
  import opened Common
  import opened Collab
  import opened CollabRuns
  import opened CollabWriters

  // ----- topics -----

  // The topics whose deletion is pending.
  function Deleted(us: seq<Update>): set<Id> {
    set u | u in us && u.DeleteUpdate? :: u.id
  }

  /** No topic whose deletion is pending stands before one whose deletion is not. Such a topic has been added again
      since, and is deleted and added again by the replay. */
  predicate TopicsSettled(topics: seq<Id>, us: seq<Update>) {
    forall i, j :: 0 <= i < j < |topics| && topics[i] in Deleted(us) ==> topics[j] in Deleted(us)
  }

  // What an update does to the list of topics, one topic at a time.
  datatype Shift = Add(id: Id) | Drop(id: Id)

  function Shifts(u: Update): seq<Shift> {
    match u
    case TopicUpdate(id, _) => [Add(id)]
    case BulkUpdate(items) => seq(|items|, i requires 0 <= i < |items| => Add(items[i].id))
    case DeleteUpdate(id) => [Drop(id)]
    case _ => []
  }

  function ShiftsOf(us: seq<Update>): seq<Shift>
    decreases |us|
  {
    if us == [] then [] else Shifts(us[0]) + ShiftsOf(us[1..])
  }

  function Shifted(topics: seq<Id>, shifts: seq<Shift>): seq<Id>
    decreases |shifts|
  {
    if shifts == [] then topics else Shifted(ShiftOne(topics, shifts[0]), shifts[1..])
  }

  function ShiftOne(topics: seq<Id>, s: Shift): seq<Id> {
    match s
    case Add(id) => if id in topics then topics else topics + [id]
    case Drop(id) => Without(topics, id)
  }

  function Added(shifts: seq<Shift>): set<Id> {
    set s | s in shifts && s.Add? :: s.id
  }

  function Dropped(shifts: seq<Shift>): set<Id> {
    set s | s in shifts && s.Drop? :: s.id
  }

  lemma {:induction false} ShiftedAppend(topics: seq<Id>, a: seq<Shift>, b: seq<Shift>)
    ensures Shifted(topics, a + b) == Shifted(Shifted(topics, a), b)
    decreases |a|
  {
    if a == [] {
      assert a + b == b;
    } else {
      assert (a + b)[0] == a[0] && (a + b)[1..] == a[1..] + b;
      ShiftedAppend(ShiftOne(topics, a[0]), a[1..], b);
    }
  }

  lemma {:induction false} PutAllShifts(c: Case, items: seq<Item>)
    ensures PutAll(c, items).topics == Shifted(c.topics, Shifts(BulkUpdate(items)))
    decreases |items|
  {
    if items != [] {
      PutAllShifts(Put(c, items[0].id, items[0].content), items[1..]);
      var s := Shifts(BulkUpdate(items));
      assert s[0] == Add(items[0].id) && s[1..] == Shifts(BulkUpdate(items[1..]));
    }
  }

  lemma OneShift(topics: seq<Id>, s: Shift)
    ensures Shifted(topics, [s]) == ShiftOne(topics, s)
  {
    assert [s][1..] == [];
  }

  lemma ApplyShifts(c: Case, u: Update)
    ensures ClientApply(c, u).topics == Shifted(c.topics, Shifts(u))
  {
    match u
    case TopicUpdate(id, _) => OneShift(c.topics, Add(id));
    case BulkUpdate(items) => PutAllShifts(c, items);
    case DeleteUpdate(id) => OneShift(c.topics, Drop(id));
    case _ =>
  }

  lemma {:induction false} AllShifts(c: Case, us: seq<Update>)
    ensures ApplyAll(c, us).topics == Shifted(c.topics, ShiftsOf(us)) && Dropped(ShiftsOf(us)) == Deleted(us)
    decreases |us|
  {
    if us != [] {
      AllShifts(ClientApply(c, us[0]), us[1..]);
      ApplyShifts(c, us[0]);
      ShiftedAppend(c.topics, Shifts(us[0]), ShiftsOf(us[1..]));
      assert us == [us[0]] + us[1..];
      assert Deleted(us) == Deleted([us[0]]) + Deleted(us[1..]);
      assert Dropped(Shifts(us[0])) == Deleted([us[0]]);
      assert Dropped(Shifts(us[0]) + ShiftsOf(us[1..])) == Dropped(Shifts(us[0])) + Dropped(ShiftsOf(us[1..]));
    }
  }

  // The topics that are in the set, or those that are not, in their order.
  function Those(topics: seq<Id>, ids: set<Id>, inside: bool): seq<Id> {
    if topics == [] then []
    else if (topics[0] in ids) == inside then [topics[0]] + Those(topics[1..], ids, inside)
    else Those(topics[1..], ids, inside)
  }

  lemma {:induction false} ThoseAppend(a: seq<Id>, b: seq<Id>, ids: set<Id>, inside: bool)
    ensures Those(a + b, ids, inside) == Those(a, ids, inside) + Those(b, ids, inside)
  {
    if a == [] {
      assert a + b == b;
    } else {
      assert (a + b)[0] == a[0] && (a + b)[1..] == a[1..] + b;
      ThoseAppend(a[1..], b, ids, inside);
    }
  }

  lemma {:induction false} ThoseIn(topics: seq<Id>, ids: set<Id>, inside: bool)
    ensures forall x :: x in Those(topics, ids, inside) <==> x in topics && (x in ids) == inside
    ensures (forall x :: x in topics ==> (x in ids) == inside) ==> Those(topics, ids, inside) == topics
  {
    if topics != [] {
      ThoseIn(topics[1..], ids, inside);
      assert topics == [topics[0]] + topics[1..];
    }
  }

  lemma {:induction false} ThoseWithout(topics: seq<Id>, ids: set<Id>, id: Id)
    requires NoDuplicates(topics)
    ensures Those(Without(topics, id), ids + {id}, true) == Without(Those(topics, ids, true), id)
    ensures Those(Without(topics, id), ids, false) == Those(topics, ids + {id}, false)
  {
    if topics != [] {
      var x, rest := topics[0], topics[1..];
      assert NoDuplicates(rest);
      if x == id {
        assert id !in rest;
        ThoseOther(rest, ids, id);
        ThoseIn(rest, ids, true);
        WithoutNone(Those(rest, ids, true), id);
      } else {
        ThoseWithout(rest, ids, id);
        assert ([x] + Without(rest, id))[1..] == Without(rest, id);
        assert ([x] + Those(rest, ids, true))[1..] == Those(rest, ids, true);
      }
    }
  }

  lemma {:induction false} ThoseOther(topics: seq<Id>, ids: set<Id>, id: Id)
    requires id !in topics
    ensures forall inside :: Those(topics, ids + {id}, inside) == Those(topics, ids, inside)
  {
    if topics != [] {
      ThoseOther(topics[1..], ids, id);
    }
  }

  lemma {:induction false} WithoutNone(topics: seq<Id>, id: Id)
    requires id !in topics
    ensures Without(topics, id) == topics
  {
    if topics != [] {
      WithoutNone(topics[1..], id);
    }
  }

  lemma ShiftDistinct(topics: seq<Id>, s: Shift)
    requires NoDuplicates(topics)
    ensures NoDuplicates(ShiftOne(topics, s))
  {
    WithoutExact(topics, s.id);
  }

  /** From any two lists of topics, those that are dropped on the way end in the same order. */
  lemma {:induction false} DroppedAlike(a: seq<Id>, b: seq<Id>, ids: set<Id>, shifts: seq<Shift>)
    requires NoDuplicates(a) && NoDuplicates(b) && Those(a, ids, true) == Those(b, ids, true)
    ensures var all := ids + Dropped(shifts); Those(Shifted(a, shifts), all, true) ==
                                              Those(Shifted(b, shifts), all, true)
    decreases |shifts|
  {
    if shifts == [] {
      assert ids + Dropped(shifts) == ids;
    } else {
      var s, rest := shifts[0], shifts[1..];
      ShiftDistinct(a, s);
      ShiftDistinct(b, s);
      assert shifts == [s] + rest;
      ThoseIn(a, ids, true);
      ThoseIn(b, ids, true);
      if s.Add? {
        ThoseAppend(a, [s.id], ids, true);
        ThoseAppend(b, [s.id], ids, true);
        assert Dropped(shifts) == Dropped(rest);
        AddedThose(a, b, ids, s.id);
        DroppedAlike(ShiftOne(a, s), ShiftOne(b, s), ids, rest);
      } else {
        ThoseWithout(a, ids, s.id);
        ThoseWithout(b, ids, s.id);
        DroppedAlike(ShiftOne(a, s), ShiftOne(b, s), ids + {s.id}, rest);
        assert ids + {s.id} + Dropped(rest) == ids + Dropped(shifts);
      }
    }
  }

  lemma AddedThose(a: seq<Id>, b: seq<Id>, ids: set<Id>, id: Id)
    requires Those(a, ids, true) == Those(b, ids, true)
    ensures Those(ShiftOne(a, Add(id)), ids, true) == Those(ShiftOne(b, Add(id)), ids, true)
  {
    ThoseIn(a, ids, true);
    ThoseIn(b, ids, true);
    ThoseAppend(a, [id], ids, true);
    ThoseAppend(b, [id], ids, true);
    assert id !in ids ==> Those([id], ids, true) == Those([], ids, true) == [];
    assert id in ids ==> (id in a <==> id in Those(a, ids, true));
    assert id in ids ==> (id in b <==> id in Those(b, ids, true));
  }

  // Topics that are never dropped keep their places; the others come after them.
  lemma {:induction false} KeptFirst(topics: seq<Id>, shifts: seq<Shift>) returns (more: seq<Id>)
    requires NoDuplicates(topics)
    ensures Shifted(topics, shifts) == Those(topics, Dropped(shifts), false) + more
    ensures forall x :: x in more ==> x in Dropped(shifts) || (x in Added(shifts) && x !in topics)
    decreases |shifts|
  {
    hide Without, NoDuplicates, Those, Added, Dropped;
    if shifts == [] {
      NothingShifted(topics);
      more := [];
    } else {
      var s, rest := shifts[0], shifts[1..];
      ShiftDistinct(topics, s);
      var after := KeptFirst(ShiftOne(topics, s), rest);
      assert shifts == [s] + rest;
      if s.Drop? {
        DropFirst(topics, s, rest, after);
        more := after;
      } else {
        more := AddFirst(topics, s, rest, after);
      }
    }
  }

  lemma DropFirst(topics: seq<Id>, s: Shift, rest: seq<Shift>, more: seq<Id>)
    requires NoDuplicates(topics) && s.Drop?
    requires forall x :: x in more ==> x in Dropped(rest) || (x in Added(rest) && x !in Without(topics, s.id))
    ensures Those(Without(topics, s.id), Dropped(rest), false) == Those(topics, Dropped([s] + rest), false)
    ensures forall x :: x in more ==> x in Dropped([s] + rest) || (x in Added([s] + rest) && x !in topics)
  {
    WithoutExact(topics, s.id);
    ThoseWithout(topics, Dropped(rest), s.id);
    DroppedMore(s, rest);
  }

  lemma DroppedMore(s: Shift, rest: seq<Shift>)
    ensures Dropped([s] + rest) == Dropped(rest) + if s.Drop? then {s.id} else {}
    ensures Added([s] + rest) == Added(rest) + if s.Add? then {s.id} else {}
  {
    var all := [s] + rest;
    assert forall x :: x in all <==> x == s || x in rest;
    assert s in all;
  }

  lemma AddFirst(topics: seq<Id>, s: Shift, rest: seq<Shift>, after: seq<Id>) returns (more: seq<Id>)
    requires s.Add?
    requires forall x :: x in after ==> x in Dropped(rest) || (x in Added(rest) && x !in ShiftOne(topics, s))
    ensures Those(ShiftOne(topics, s), Dropped(rest), false) + after == Those(topics, Dropped([s] + rest), false) + more
    ensures forall x :: x in more ==> x in Dropped([s] + rest) || (x in Added([s] + rest) && x !in topics)
  {
    DroppedMore(s, rest);
    more := after;
    assert Dropped([s] + rest) == Dropped(rest);
    if s.id !in topics {
      var own := Those([s.id], Dropped(rest), false);
      ThoseAppend(topics, [s.id], Dropped(rest), false);
      ThoseIn([s.id], Dropped(rest), false);
      assert Those(topics, Dropped(rest), false) + own + after == Those(topics, Dropped(rest), false) + (own + after);
      more := own + after;
    }
  }

  lemma NothingShifted(topics: seq<Id>)
    ensures topics == Those(topics, Dropped([]), false) + []
  {
    ThoseIn(topics, Dropped([]), false);
  }

  lemma {:induction false} ShiftedIn(topics: seq<Id>, shifts: seq<Shift>, x: Id)
    requires NoDuplicates(topics) && x !in Dropped(shifts)
    ensures NoDuplicates(Shifted(topics, shifts))
    ensures x in Shifted(topics, shifts) <==> x in topics || x in Added(shifts)
    decreases |shifts|
  {
    if shifts != [] {
      var s, rest := shifts[0], shifts[1..];
      assert shifts == [s] + rest;
      ShiftDistinct(topics, s);
      WithoutExact(topics, s.id);
      ShiftedIn(ShiftOne(topics, s), rest, x);
      assert Added(shifts) == Added([s]) + Added(rest);
    }
  }

  lemma {:induction false} ShiftedDistinct(topics: seq<Id>, shifts: seq<Shift>)
    requires NoDuplicates(topics)
    ensures NoDuplicates(Shifted(topics, shifts))
    decreases |shifts|
  {
    if shifts != [] {
      ShiftDistinct(topics, shifts[0]);
      ShiftedDistinct(ShiftOne(topics, shifts[0]), shifts[1..]);
    }
  }

  /** Doing some shifts again moves the topics that they drop behind the others. */
  lemma ShiftedTwice(topics: seq<Id>, shifts: seq<Shift>)
    requires NoDuplicates(topics)
    ensures var s, ids := Shifted(topics, shifts), Dropped(shifts);
            Shifted(s, shifts) == Those(s, ids, false) + Those(s, ids, true)
  {
    hide *;
    var s, ids := Shifted(topics, shifts), Dropped(shifts);
    ShiftedDistinct(topics, shifts);
    var more := KeptFirst(s, shifts);
    var kept := Those(s, ids, false);
    forall x | x in more ensures x in ids {
      if x !in ids {
        ShiftedIn(topics, shifts, x);
      }
    }
    var none: set<Id> := {};
    NoneThose(topics);
    NoneThose(s);
    DroppedAlike(topics, s, none, shifts);
    assert none + ids == ids;
    ThoseAppend(kept, more, ids, true);
    ThoseIn(s, ids, false);
    OutsideThose(kept, ids);
    ThoseIn(more, ids, true);
    assert Those(s, ids, true) == [] + more == more;
  }

  lemma {:induction false} NoneThose(topics: seq<Id>)
    ensures Those(topics, {}, true) == []
  {
    if topics != [] {
      NoneThose(topics[1..]);
    }
  }

  lemma {:induction false} OutsideThose(topics: seq<Id>, ids: set<Id>)
    requires forall x :: x in topics ==> x !in ids
    ensures Those(topics, ids, true) == []
  {
    if topics != [] {
      OutsideThose(topics[1..], ids);
    }
  }

  predicate Last(topics: seq<Id>, ids: set<Id>) {
    forall i, j :: 0 <= i < j < |topics| && topics[i] in ids ==> topics[j] in ids
  }

  lemma LastRest(topics: seq<Id>, ids: set<Id>)
    requires topics != [] && topics[0] !in ids
    ensures Last(topics, ids) <==> Last(topics[1..], ids)
  {
    var rest := topics[1..];
    assert forall i :: 0 <= i < |rest| ==> rest[i] == topics[i + 1];
    if Last(rest, ids) {
      forall i, j | 0 <= i < j < |topics| && topics[i] in ids ensures topics[j] in ids {
        assert rest[i - 1] in ids && rest[j - 1] == topics[j];
      }
    }
  }

  // When the first topic is in the set, either all are or some other comes to the front.
  lemma LastFirst(topics: seq<Id>, ids: set<Id>)
    requires topics != [] && topics[0] in ids
    ensures Those(topics, ids, false) + Those(topics, ids, true) == topics <==> Last(topics, ids)
  {
    hide Those;
    var out := Those(topics, ids, false);
    ThoseIn(topics, ids, true);
    ThoseIn(topics, ids, false);
    assert forall x :: x in topics && x !in ids ==> x in out;
    if out != [] {
      assert out[0] in out && (out + Those(topics, ids, true))[0] == out[0] != topics[0];
      var j :| 0 <= j < |topics| && topics[j] == out[0];
      assert !Last(topics, ids);
    }
  }

  lemma {:induction false} LastExact(topics: seq<Id>, ids: set<Id>)
    ensures Those(topics, ids, false) + Those(topics, ids, true) == topics <==> Last(topics, ids)
  {
    if topics != [] {
      var x, rest := topics[0], topics[1..];
      if x in ids {
        LastFirst(topics, ids);
      } else {
        LastExact(rest, ids);
        LastRest(topics, ids);
        var both := Those(rest, ids, false) + Those(rest, ids, true);
        assert Those(topics, ids, false) + Those(topics, ids, true) == [x] + both;
        assert ([x] + both)[1..] == both && topics == [x] + rest;
      }
    }
  }

  lemma TopicsExact(base: Case, us: seq<Update>, topics: seq<Id>, c: Case)
    requires NoDuplicates(base.topics) && topics == ApplyAll(base, us).topics && c.topics == topics
    ensures ApplyAll(c, us).topics == topics <==> TopicsSettled(topics, us)
  {
    AllShifts(base, us);
    AllShifts(c, us);
    ShiftedTwice(base.topics, ShiftsOf(us));
    LastExact(topics, Deleted(us));
  }

  // ----- contents -----

  function Puts(u: Update): set<Id> {
    if u.TopicUpdate? || u.BulkUpdate? then TopicsOf(u) else {}
  }

  // The cases have the same content for a topic.
  predicate AgreeOn(a: Case, b: Case, id: Id) {
    id in a.contents && id in b.contents && a.contents[id] == b.contents[id]
  }

  lemma {:induction false} PutAllAgree(a: Case, b: Case, items: seq<Item>, id: Id)
    ensures (exists x :: x in items && x.id == id) || AgreeOn(a, b, id) ==>
            AgreeOn(PutAll(a, items), PutAll(b, items), id)
    ensures (forall x :: x in items ==> x.id != id) ==>
              (id in PutAll(a, items).contents <==> id in a.contents)
              && (id in a.contents ==> AgreeOn(PutAll(a, items), a, id))
    decreases |items|
  {
    if items != [] {
      var i := items[0];
      assert items == [i] + items[1..];
      PutAllAgree(Put(a, i.id, i.content), Put(b, i.id, i.content), items[1..], id);
    }
  }

  lemma UpdateAgree(a: Case, b: Case, u: Update, id: Id)
    ensures id in Puts(u) || AgreeOn(a, b, id) ==> AgreeOn(ClientApply(a, u), ClientApply(b, u), id)
    ensures id !in Puts(u) && id in a.contents ==> AgreeOn(ClientApply(a, u), a, id)
  {
    match u
    case BulkUpdate(items) => PutAllAgree(a, b, items, id);
    case _ =>
  }

  lemma {:induction false} AllAgree(a: Case, b: Case, us: seq<Update>, id: Id)
    ensures (exists u :: u in us && id in Puts(u)) || AgreeOn(a, b, id) ==>
            AgreeOn(ApplyAll(a, us), ApplyAll(b, us), id)
    ensures (forall u :: u in us ==> id !in Puts(u)) && id in a.contents ==> AgreeOn(ApplyAll(a, us), a, id)
    decreases |us|
  {
    if us != [] {
      var u := us[0];
      assert us == [u] + us[1..];
      UpdateAgree(a, b, u, id);
      AllAgree(ClientApply(a, u), ClientApply(b, u), us[1..], id);
    }
  }

  // Replaying never spoils the contents of a topic.
  lemma ContentsStay(base: Case, us: seq<Update>, server: Case, c: Case, id: Id)
    requires Same(ApplyAll(base, us), server) && id in server.topics && AgreeOn(c, server, id)
    ensures AgreeOn(ApplyAll(c, us), server, id)
  {
    AllAgree(c, base, us, id);
  }

  // ----- folders -----

  function FolderStep(folders: seq<Folder>, u: Update): seq<Folder> {
    match u
    case FolderUpdate(name, topics) => SetEvery(folders, name, topics)
    case FoldersUpdate(names) => Rearranged(folders, names)
    case RenameUpdate(oldname, newname) => RenameEvery(folders, oldname, newname)
    case _ => folders
  }

  function FoldersAfter(folders: seq<Folder>, us: seq<Update>): seq<Folder>
    decreases |us|
  {
    if us == [] then folders else FoldersAfter(FolderStep(folders, us[0]), us[1..])
  }

  lemma {:induction false} FoldersApply(c: Case, us: seq<Update>)
    ensures ApplyAll(c, us).folders == FoldersAfter(c.folders, us)
    decreases |us|
  {
    if us != [] {
      if us[0].BulkUpdate? {
        PutAllTopics(c, us[0].items);
      }
      FoldersApply(ClientApply(c, us[0]), us[1..]);
    }
  }

  // What one folder becomes by itself, as long as no list of folders comes.
  function Traced(f: Folder, us: seq<Update>): Folder
    decreases |us|
  {
    if us == [] then f
    else
      match us[0]
      case FolderUpdate(name, topics) => Traced(if f.name == name then Folder(name, topics) else f, us[1..])
      case RenameUpdate(oldname, newname) => Traced(if f.name == oldname then Folder(newname, f.topics) else f, us[1..])
      case _ => Traced(f, us[1..])
  }

  function TracedAll(folders: seq<Folder>, us: seq<Update>): (r: seq<Folder>)
    ensures |r| == |folders|
  {
    seq(|folders|, i requires 0 <= i < |folders| => Traced(folders[i], us))
  }

  // The position of the first list of folders.
  function FirstList(us: seq<Update>): (r: nat)
    ensures r <= |us| && (r < |us| ==> us[r].FoldersUpdate?)
    ensures forall i :: 0 <= i < r ==> !us[i].FoldersUpdate?
  {
    if us == [] || us[0].FoldersUpdate? then 0 else 1 + FirstList(us[1..])
  }

  // The last name of a folder whose topics stay what they are: nothing sets them and no list leaves the folder out.
  function Kept(name: string, us: seq<Update>): Option<string>
    decreases |us|
  {
    if us == [] then Some(name)
    else
      match us[0]
      case FolderUpdate(other, _) => if name == other then None else Kept(name, us[1..])
      case RenameUpdate(oldname, newname) => Kept(if name == oldname then newname else name, us[1..])
      case FoldersUpdate(names) => if name in names then Kept(name, us[1..]) else None
      case _ => Kept(name, us[1..])
  }

  function Found(folders: seq<Folder>, name: string): seq<Id> {
    var t := LastTopics(folders, name);
    if t.Some? then t.value else []
  }

  /** Without a list of folders, every folder goes through the pending renames and updates by itself, and must come
      back. With one, its names are there anyway; each must find the topics that it has now, unless they are replaced
      or dropped later. */
  predicate FoldersSettled(folders: seq<Folder>, us: seq<Update>) {
    var k := FirstList(us);
    if k == |us| then forall i :: 0 <= i < |folders| ==> Traced(folders[i], us) == folders[i]
    else
      forall name :: name in us[k].names ==>
        var now := Kept(name, us[k + 1..]);
        now.Some? ==> Found(TracedAll(folders, us[..k]), name) == Found(folders, now.value)
  }

  lemma {:induction false} TracedApart(folders: seq<Folder>, us: seq<Update>)
    requires forall u :: u in us ==> !u.FoldersUpdate?
    ensures FoldersAfter(folders, us) == TracedAll(folders, us)
    decreases |us|
  {
    if us == [] {
      assert TracedAll(folders, us) == folders;
    } else {
      TracedApart(FolderStep(folders, us[0]), us[1..]);
      assert TracedAll(FolderStep(folders, us[0]), us[1..]) == TracedAll(folders, us);
    }
  }

  lemma {:induction false} FoldersAppend(folders: seq<Folder>, us: seq<Update>, vs: seq<Update>)
    ensures FoldersAfter(folders, us + vs) == FoldersAfter(FoldersAfter(folders, us), vs)
    decreases |us|
  {
    if us == [] {
      assert us + vs == vs;
    } else {
      assert (us + vs)[0] == us[0] && (us + vs)[1..] == us[1..] + vs;
      FoldersAppend(FolderStep(folders, us[0]), us[1..], vs);
    }
  }

  // Folder names stay distinct.
  ghost predicate Orderly(folders: seq<Folder>, us: seq<Update>)
    decreases |us|
  {
    DistinctFolders(folders) && (us != [] ==> Orderly(FolderStep(folders, us[0]), us[1..]))
  }

  predicate SameNames(a: seq<Folder>, b: seq<Folder>) {
    |a| == |b| && forall i :: 0 <= i < |a| ==> a[i].name == b[i].name
  }

  // Where the names are the same, only the topics of folders that keep them matter.
  predicate KeptAlike(a: seq<Folder>, b: seq<Folder>, us: seq<Update>)
    requires |a| == |b|
  {
    forall i :: 0 <= i < |a| && Kept(a[i].name, us).Some? ==> a[i].topics == b[i].topics
  }

  lemma {:induction false} LastTopicsAt(folders: seq<Folder>, i: nat)
    requires DistinctFolders(folders) && i < |folders|
    ensures LastTopics(folders, folders[i].name) == Some(folders[i].topics)
  {
    if i == 0 {
      NoTopics(folders[1..], folders[0].name);
    } else {
      LastTopicsAt(folders[1..], i - 1);
    }
  }

  lemma {:induction false} NoTopics(folders: seq<Folder>, name: string)
    requires forall i :: 0 <= i < |folders| ==> folders[i].name != name
    ensures LastTopics(folders, name) == None
  {
    if folders != [] {
      NoTopics(folders[1..], name);
    }
  }

  // One step from lists with the same names.
  lemma StepAlike(a: seq<Folder>, b: seq<Folder>, u: Update, rest: seq<Update>)
    requires SameNames(a, b) && DistinctFolders(a)
    ensures SameNames(FolderStep(a, u), FolderStep(b, u))
    ensures KeptAlike(a, b, [u] + rest) <==> KeptAlike(FolderStep(a, u), FolderStep(b, u), rest)
  {
    assert ([u] + rest)[0] == u && ([u] + rest)[1..] == rest;
    match u
    case FoldersUpdate(names) => ListAlike(a, b, u, rest);
    case _ => SimpleAlike(a, b, u, rest);
  }

  lemma SimpleAlike(a: seq<Folder>, b: seq<Folder>, u: Update, rest: seq<Update>)
    requires SameNames(a, b) && !u.FoldersUpdate?
    ensures SameNames(FolderStep(a, u), FolderStep(b, u))
    ensures KeptAlike(a, b, [u] + rest) <==> KeptAlike(FolderStep(a, u), FolderStep(b, u), rest)
  {
    assert ([u] + rest)[0] == u && ([u] + rest)[1..] == rest;
    var a', b' := FolderStep(a, u), FolderStep(b, u);
    forall i | 0 <= i < |a|
      ensures (Kept(a[i].name, [u] + rest).Some? ==> a[i].topics == b[i].topics) <==>
              (Kept(a'[i].name, rest).Some? ==> a'[i].topics == b'[i].topics)
    {
    }
  }

  lemma ListAlike(a: seq<Folder>, b: seq<Folder>, u: Update, rest: seq<Update>)
    requires SameNames(a, b) && DistinctFolders(a) && u.FoldersUpdate?
    ensures KeptAlike(a, b, [u] + rest) <==> KeptAlike(FolderStep(a, u), FolderStep(b, u), rest)
  {
    assert ([u] + rest)[0] == u && ([u] + rest)[1..] == rest;
    var a', b' := FolderStep(a, u), FolderStep(b, u);
    if KeptAlike(a, b, [u] + rest) {
      forall k | 0 <= k < |a'| && Kept(a'[k].name, rest).Some?
        ensures a'[k].topics == b'[k].topics
      {
        if i :| 0 <= i < |a| && a[i].name == u.names[k] {
          LastTopicsAt(a, i);
          LastTopicsAt(b, i);
        } else {
          NoTopics(a, u.names[k]);
          NoTopics(b, u.names[k]);
        }
      }
    }
    if KeptAlike(a', b', rest) {
      forall i | 0 <= i < |a| && Kept(a[i].name, [u] + rest).Some?
        ensures a[i].topics == b[i].topics
      {
        var k :| 0 <= k < |u.names| && u.names[k] == a[i].name;
        LastTopicsAt(a, i);
        LastTopicsAt(b, i);
        assert a'[k].name == a[i].name;
      }
    }
  }

  /** Two lists of folders with the same names become the same if and only if folders that keep their topics have the
      same ones. */
  lemma {:induction false} AlikeExact(a: seq<Folder>, b: seq<Folder>, us: seq<Update>)
    requires SameNames(a, b) && Orderly(a, us)
    ensures FoldersAfter(a, us) == FoldersAfter(b, us) <==> KeptAlike(a, b, us)
    decreases |us|
  {
    if us == [] {
      if KeptAlike(a, b, us) {
        assert forall i :: 0 <= i < |a| ==> a[i] == b[i];
      }
    } else {
      StepAlike(a, b, us[0], us[1..]);
      assert us == [us[0]] + us[1..];
      AlikeExact(FolderStep(a, us[0]), FolderStep(b, us[0]), us[1..]);
    }
  }

  // A folder that keeps its topics has them at the end, under its last name.
  lemma {:induction false} KeptFound(folders: seq<Folder>, us: seq<Update>, i: nat)
    requires Orderly(folders, us) && i < |folders| && Kept(folders[i].name, us).Some?
    ensures Found(FoldersAfter(folders, us), Kept(folders[i].name, us).value) == folders[i].topics
    decreases |us|
  {
    if us == [] {
      LastTopicsAt(folders, i);
    } else {
      var next := FolderStep(folders, us[0]);
      var k := KeptStep(folders, us, i);
      KeptFound(next, us[1..], k);
    }
  }

  // Where a folder that keeps its topics is after one step.
  lemma KeptStep(folders: seq<Folder>, us: seq<Update>, i: nat) returns (k: nat)
    requires DistinctFolders(folders) && i < |folders| && us != [] && Kept(folders[i].name, us).Some?
    ensures var next := FolderStep(folders, us[0]);
            k < |next| && next[k].topics == folders[i].topics
            && Kept(next[k].name, us[1..]) == Kept(folders[i].name, us)
  {
    k := i;
    if us[0].FoldersUpdate? {
      k :| 0 <= k < |us[0].names| && us[0].names[k] == folders[i].name;
      LastTopicsAt(folders, i);
    }
  }

  lemma {:induction false} OrderlyAppend(folders: seq<Folder>, us: seq<Update>, vs: seq<Update>)
    requires Orderly(folders, us + vs)
    ensures Orderly(FoldersAfter(folders, us), vs)
    decreases |us|
  {
    if us == [] {
      assert us + vs == vs;
    } else {
      assert (us + vs)[0] == us[0] && (us + vs)[1..] == us[1..] + vs;
      OrderlyAppend(FolderStep(folders, us[0]), us[1..], vs);
    }
  }

  lemma FoldersExact(base: seq<Folder>, us: seq<Update>, folders: seq<Folder>)
    requires Orderly(base, us) && folders == FoldersAfter(base, us)
    ensures FoldersAfter(folders, us) == folders <==> FoldersSettled(folders, us)
  {
    var k := FirstList(us);
    if k == |us| {
      assert forall u :: u in us ==> !u.FoldersUpdate?;
      TracedApart(folders, us);
      var r := TracedAll(folders, us);
      assert r == folders <==> forall i :: 0 <= i < |folders| ==> r[i] == folders[i];
    } else {
      ListExact(base, us, folders, k);
    }
  }

  lemma ListExact(base: seq<Folder>, us: seq<Update>, folders: seq<Folder>, k: nat)
    requires Orderly(base, us) && folders == FoldersAfter(base, us) && k == FirstList(us) < |us|
    ensures FoldersAfter(folders, us) == folders <==> FoldersSettled(folders, us)
  {
    hide FoldersAfter, Orderly, Kept;
    var before, names, rest := us[..k], us[k].names, us[k + 1..];
    assert us == before + ([us[k]] + rest);
    var a, b := Rearranged(FoldersAfter(base, before), names), Rearranged(TracedAll(folders, before), names);
    TracedApart(folders, before);
    AfterList(base, before, us[k], rest);
    AfterList(folders, before, us[k], rest);
    OrderlyList(base, before, us[k], rest);
    AlikeExact(a, b, rest);
    forall i | 0 <= i < |names| && Kept(names[i], rest).Some?
      ensures a[i].topics == b[i].topics <==>
              Found(TracedAll(folders, before), names[i]) == Found(folders, Kept(names[i], rest).value)
    {
      KeptFound(a, rest, i);
    }
    assert KeptAlike(a, b, rest) <==> FoldersSettled(folders, us);
  }

  lemma AfterList(folders: seq<Folder>, before: seq<Update>, u: Update, rest: seq<Update>)
    requires u.FoldersUpdate?
    ensures FoldersAfter(folders, before + ([u] + rest)) ==
            FoldersAfter(Rearranged(FoldersAfter(folders, before), u.names), rest)
  {
    FoldersAppend(folders, before, [u] + rest);
    assert ([u] + rest)[0] == u && ([u] + rest)[1..] == rest;
  }

  lemma OrderlyList(folders: seq<Folder>, before: seq<Update>, u: Update, rest: seq<Update>)
    requires u.FoldersUpdate? && Orderly(folders, before + ([u] + rest))
    ensures Orderly(Rearranged(FoldersAfter(folders, before), u.names), rest)
  {
    OrderlyAppend(folders, before, [u] + rest);
    assert ([u] + rest)[0] == u && ([u] + rest)[1..] == rest;
  }

  // ----- where a case comes from -----

  /** Replaying the updates from `base` gives the server's case, and on the way no two folders have the same name and
      no topic is listed twice. */
  ghost predicate Since(base: Case, us: seq<Update>, server: Case)
    decreases |us|
  {
    && DistinctFolders(base.folders) && NoDuplicates(base.topics)
    && if us == [] then Same(base, server) else Since(ClientApply(base, us[0]), us[1..], server)
  }

  lemma {:induction false} SinceReplays(base: Case, us: seq<Update>, server: Case)
    requires Since(base, us, server)
    ensures Same(ApplyAll(base, us), server) && Complete(server)
    ensures NoDuplicates(server.topics) && DistinctFolders(server.folders)
    decreases |us|
  {
    if us != [] {
      SinceReplays(ClientApply(base, us[0]), us[1..], server);
    }
  }

  lemma NoDuplicatesAfter(c: Case, u: Update)
    requires NoDuplicates(c.topics)
    ensures NoDuplicates(ClientApply(c, u).topics)
  {
    match u
    case BulkUpdate(items) => PutAllDistinct(c, items);
    case DeleteUpdate(id) => WithoutExact(c.topics, id);
    case _ =>
  }

  lemma {:induction false} PutAllDistinct(c: Case, items: seq<Item>)
    requires NoDuplicates(c.topics)
    ensures NoDuplicates(PutAll(c, items).topics)
    decreases |items|
  {
    if items != [] {
      PutAllDistinct(Put(c, items[0].id, items[0].content), items[1..]);
    }
  }

  lemma {:induction false} SinceMore(base: Case, us: seq<Update>, server: Case, u: Update)
    requires Since(base, us, server) && DistinctFolders(ClientApply(server, u).folders)
    ensures Since(base, us + [u], ClientApply(server, u))
    decreases |us|
  {
    if us == [] {
      assert us + [u] == [u] && [u][1..] == [];
      ApplySame(base, server, u);
      NoDuplicatesAfter(base, u);
    } else {
      assert (us + [u])[0] == us[0] && (us + [u])[1..] == us[1..] + [u];
      SinceMore(ClientApply(base, us[0]), us[1..], server, u);
    }
  }

  // Folder names stay distinct while updates are replayed.
  ghost predicate StaysDistinct(c: Case, us: seq<Update>)
    decreases |us|
  {
    us == [] || (DistinctFolders(ClientApply(c, us[0]).folders) && StaysDistinct(ClientApply(c, us[0]), us[1..]))
  }

  lemma {:induction false} SinceAll(base: Case, us: seq<Update>, server: Case, vs: seq<Update>)
    requires Since(base, us, server) && StaysDistinct(server, vs)
    ensures Since(base, us + vs, ApplyAll(server, vs))
    decreases |vs|
  {
    if vs == [] {
      assert us + vs == us;
    } else {
      SinceMore(base, us, server, vs[0]);
      SinceAll(base, us + [vs[0]], ClientApply(server, vs[0]), vs[1..]);
      assert us + [vs[0]] + vs[1..] == us + vs;
    }
  }

  lemma {:induction false} SinceOrderly(base: Case, us: seq<Update>, server: Case)
    requires Since(base, us, server)
    ensures Orderly(base.folders, us)
    decreases |us|
  {
    if us != [] {
      if us[0].BulkUpdate? {
        PutAllTopics(base, us[0].items);
      }
      SinceOrderly(ClientApply(base, us[0]), us[1..], server);
    }
  }

  /** Replaying pending updates on the case that has them already changes nothing if and only if topics and folders
      are settled. */
  lemma ReplayExact(base: Case, us: seq<Update>, server: Case)
    requires Since(base, us, server)
    ensures Same(ApplyAll(Visible(server), us), server) <==>
            TopicsSettled(server.topics, us) && FoldersSettled(server.folders, us)
  {
    hide ApplyAll, TopicsSettled, FoldersSettled, Orderly, FoldersAfter;
    var c := Visible(server);
    SinceReplays(base, us, server);
    SinceBase(base, us, server);
    SinceOrderly(base, us, server);
    TopicsExact(base, us, server.topics, c);
    FoldersApply(c, us);
    FoldersApply(base, us);
    FoldersExact(base.folders, us, server.folders);
    forall id | id in server.topics ensures AgreeOn(ApplyAll(c, us), server, id) {
      ContentsStay(base, us, server, c, id);
    }
  }

  lemma SinceBase(base: Case, us: seq<Update>, server: Case)
    requires Since(base, us, server)
    ensures NoDuplicates(base.topics) && DistinctFolders(base.folders)
  {
  }

  // ----- what the kinds of pending updates do -----

  lemma {:induction false} TracedLike(f: Folder, g: Folder, us: seq<Update>)
    requires f.name == g.name
    ensures Traced(f, us).name == Traced(g, us).name
    ensures g.topics == Traced(f, us).topics ==> Traced(g, us).topics == g.topics
    decreases |us|
  {
    if us != [] {
      match us[0]
      case FolderUpdate(name, topics) =>
        if f.name != name {
          TracedLike(f, g, us[1..]);
        }
      case RenameUpdate(oldname, newname) =>
        if f.name == oldname {
          TracedLike(Folder(newname, f.topics), Folder(newname, g.topics), us[1..]);
        } else {
          TracedLike(f, g, us[1..]);
        }
      case _ => TracedLike(f, g, us[1..]);
    }
  }

  /** With no list of folders pending: a folder that had its name before the pending updates comes back, and one that
      has taken the name of another folder gets that folder's present name as well. */
  lemma FolderBack(base: Case, us: seq<Update>, server: Case, i: nat)
    requires Since(base, us, server) && FirstList(us) == |us| && i < |server.folders|
    ensures |base.folders| == |server.folders|
    ensures base.folders[i].name == server.folders[i].name ==> Traced(server.folders[i], us) == server.folders[i]
    ensures forall k :: 0 <= k < |server.folders| && k != i && base.folders[k].name == server.folders[i].name ==>
              Traced(server.folders[i], us).name == server.folders[k].name != server.folders[i].name
  {
    SinceReplays(base, us, server);
    FoldersApply(base, us);
    assert forall u :: u in us ==> !u.FoldersUpdate?;
    TracedApart(base.folders, us);
    forall k | 0 <= k < |server.folders| && base.folders[k].name == server.folders[i].name
      ensures Traced(server.folders[i], us).name == server.folders[k].name
      ensures k == i ==> Traced(server.folders[i], us) == server.folders[i]
    {
      TracedLike(base.folders[k], server.folders[i], us);
    }
  }

  lemma {:induction false} NamesKept(f: Folder, us: seq<Update>)
    requires forall u :: u in us ==> !u.RenameUpdate?
    ensures Traced(f, us).name == f.name
    ensures (forall u :: u in us ==> !u.FolderUpdate?) ==> Traced(f, us) == f
    decreases |us|
  {
    if us != [] {
      NamesKept(if us[0].FolderUpdate? && us[0].name == f.name then Folder(f.name, us[0].topics) else f, us[1..]);
    }
  }

  lemma {:induction false} KeptName(name: string, us: seq<Update>)
    requires forall u :: u in us ==> !u.RenameUpdate?
    ensures Kept(name, us).Some? ==> Kept(name, us).value == name
    decreases |us|
  {
    if us != [] {
      KeptName(name, us[1..]);
    }
  }

  lemma FoldersNumber(base: Case, us: seq<Update>, server: Case)
    requires Since(base, us, server) && FirstList(us) == |us|
    ensures |base.folders| == |server.folders|
  {
    SinceReplays(base, us, server);
    FoldersApply(base, us);
    TracedApart(base.folders, us);
  }

  // Without renames and lists every folder has the name that it had before.
  lemma OwnName(base: Case, us: seq<Update>, server: Case, i: nat)
    requires Since(base, us, server) && FirstList(us) == |us| && i < |server.folders| && forall u :: u in us ==>
             !u.RenameUpdate?
    ensures i < |base.folders| && base.folders[i].name == server.folders[i].name
  {
    SinceReplays(base, us, server);
    FoldersApply(base, us);
    TracedApart(base.folders, us);
    NamesKept(base.folders[i], us);
  }
}
