/**
  A collaboration's case as the server keeps it (case/collabd.cc:927-1083, 1085-1192) and as a client replays
  the server's notifications (case/app/collab.js:98-141, case/app/case.js:1868-1929). The two handle the same
  update with different code; this module says exactly when they do the same.
 */
module Collab {
  import opened Common

  type Id = string

  // What a topic's frame holds, as far as redirection looks into it.
  datatype Datum = Topic(id: Id) | Str(text: string) | Qualifier(fields: seq<Field>) | Other(value: int)
  datatype Field = Field(name: Id, value: Datum)
  type Content = seq<Field>

  datatype Item = Item(id: Id, content: Content)
  datatype Folder = Folder(name: string, topics: seq<Id>)
  datatype Case = Case(topics: seq<Id>, contents: map<Id, Content>, folders: seq<Folder>)

  // Bulk is a topic update that carries an array; only the server makes it.
  datatype Update =
    | TopicUpdate(id: Id, content: Content)
    | TopicsUpdate(items: seq<Item>)
    | BulkUpdate(items: seq<Item>)
    | FolderUpdate(name: string, topics: seq<Id>)
    | FoldersUpdate(names: seq<string>)
    | DeleteUpdate(id: Id)
    | RenameUpdate(oldname: string, newname: string)
    | Saved(time: string)

  // ----- shared by both sides -----

  function Put(c: Case, id: Id, content: Content): Case {
    c.(topics := if id in c.topics then c.topics else c.topics + [id], contents := c.contents[id := content])
  }

  function PutAll(c: Case, items: seq<Item>): Case
    decreases |items|
  {
    if items == [] then c else PutAll(Put(c, items[0].id, items[0].content), items[1..])
  }

  // The topics of the last folder with a name.
  function LastTopics(folders: seq<Folder>, name: string): Option<seq<Id>> {
    if folders == [] then None
    else
      var rest := LastTopics(folders[1..], name);
      if rest.Some? then rest else if folders[0].name == name then Some(folders[0].topics) else None
  }

  // A new list of folders; those that are not there yet are empty.
  function Rearranged(folders: seq<Folder>, names: seq<string>): (r: seq<Folder>)
    ensures |r| == |names|
  {
    seq(|names|, i requires 0 <= i < |names| =>
      var t := LastTopics(folders, names[i]);
      Folder(names[i], if t.Some? then t.value else []))
  }

  function Without(topics: seq<Id>, id: Id): seq<Id> {
    if topics == [] then []
    else if topics[0] == id then topics[1..] else [topics[0]] + Without(topics[1..], id)
  }

  // ----- the server -----

  // The first folder with the name gets the topics.
  function SetFirst(folders: seq<Folder>, name: string, topics: seq<Id>): (r: seq<Folder>)
    ensures |r| == |folders|
  {
    if folders == [] then []
    else if folders[0].name == name then [Folder(name, topics)] + folders[1..]
    else [folders[0]] + SetFirst(folders[1..], name, topics)
  }

  function RenameFirst(folders: seq<Folder>, oldname: string, newname: string): (r: seq<Folder>)
    ensures |r| == |folders|
  {
    if folders == [] then []
    else if folders[0].name == oldname then [Folder(newname, folders[0].topics)] + folders[1..]
    else [folders[0]] + RenameFirst(folders[1..], oldname, newname)
  }

  // What an update from a client does to the case.
  function ServerApply(c: Case, u: Update): Case {
    match u
    case TopicUpdate(id, content) => Put(c, id, content)
    case TopicsUpdate(items) => PutAll(c, items)
    case BulkUpdate(_) => c
    case FolderUpdate(name, topics) => c.(folders := SetFirst(c.folders, name, topics))
    case FoldersUpdate(names) => c.(folders := Rearranged(c.folders, names))
    case DeleteUpdate(id) => c.(topics := Without(c.topics, id))
    case RenameUpdate(oldname, newname) => c.(folders := RenameFirst(c.folders, oldname, newname))
    case Saved(_) => c
  }

  // ----- the client -----

  function SetEvery(folders: seq<Folder>, name: string, topics: seq<Id>): (r: seq<Folder>)
    ensures |r| == |folders|
  {
    seq(|folders|, i requires 0 <= i < |folders| => if folders[i].name == name then Folder(name, topics)
        else folders[i])
  }

  function RenameEvery(folders: seq<Folder>, oldname: string, newname: string): (r: seq<Folder>)
    ensures |r| == |folders|
  {
    seq(|folders|, i requires 0 <= i < |folders| =>
      if folders[i].name == oldname then Folder(newname, folders[i].topics) else folders[i])
  }

  // What a notification does to the client's copy. Updates of several topics have no handler.
  function ClientApply(c: Case, u: Update): Case {
    match u
    case TopicUpdate(id, content) => Put(c, id, content)
    case TopicsUpdate(_) => c
    case BulkUpdate(items) => PutAll(c, items)
    case FolderUpdate(name, topics) => c.(folders := SetEvery(c.folders, name, topics))
    case FoldersUpdate(names) => c.(folders := Rearranged(c.folders, names))
    case DeleteUpdate(id) => c.(topics := Without(c.topics, id))
    case RenameUpdate(oldname, newname) => c.(folders := RenameEvery(c.folders, oldname, newname))
    case Saved(_) => c
  }

  // ----- when both sides do the same -----

  // Every folder of that name but the first already holds the topics.
  predicate OnlyFirst(folders: seq<Folder>, name: string, topics: seq<Id>) {
    forall i, j :: 0 <= i < j < |folders| && folders[i].name == name && folders[j].name == name ==>
                   folders[j].topics == topics
  }

  predicate AtMostOne(folders: seq<Folder>, name: string) {
    forall i, j :: 0 <= i < j < |folders| && folders[i].name == name ==> folders[j].name != name
  }

  // The items say nothing new.
  predicate Known(c: Case, items: seq<Item>) {
    && (forall i :: 0 <= i < |items| ==> items[i].id in c.topics)
    && forall i :: 0 <= i < |items| ==>
         (items[i].id in c.contents && c.contents[items[i].id] == items[i].content) ||
         exists j :: i < j < |items| && items[j].id == items[i].id
  }

  predicate Agreeable(c: Case, u: Update) {
    match u
    case FolderUpdate(name, topics) => OnlyFirst(c.folders, name, topics)
    case RenameUpdate(oldname, newname) => oldname == newname || AtMostOne(c.folders, oldname)
    case TopicsUpdate(items) => Known(c, items)
    case BulkUpdate(items) => Known(c, items)
    case _ => true
  }

  lemma {:induction false} SetAgrees(folders: seq<Folder>, name: string, topics: seq<Id>)
    ensures SetFirst(folders, name, topics) == SetEvery(folders, name, topics) <==> OnlyFirst(folders, name, topics)
  {
    var first, every := SetFirst(folders, name, topics), SetEvery(folders, name, topics);
    if folders != [] {
      var rest := folders[1..];
      if folders[0].name == name {
        if OnlyFirst(folders, name, topics) {
          assert first == every;
        } else {
          var i, j :| 0 <= i < j < |folders| && folders[i].name == name && folders[j].name == name
                      && folders[j].topics != topics;
          assert first[j] != every[j];
        }
        if first == every {
          assert OnlyFirst(folders, name, topics) by {
            forall i, j | 0 <= i < j < |folders| && folders[i].name == name && folders[j].name == name
              ensures folders[j].topics == topics
            {
              assert first[j] == every[j];
            }
          }
        }
      } else {
        SetAgrees(rest, name, topics);
        assert every == [folders[0]] + SetEvery(rest, name, topics);
        assert OnlyFirst(folders, name, topics) <==> OnlyFirst(rest, name, topics) by {
          assert forall i :: 0 <= i < |rest| ==> rest[i] == folders[i + 1];
          if OnlyFirst(rest, name, topics) {
            forall i, j | 0 <= i < j < |folders| && folders[i].name == name && folders[j].name == name
              ensures folders[j].topics == topics
            {
              assert rest[i - 1].name == name && rest[j - 1].name == name;
            }
          }
        }
        assert first == [folders[0]] + SetFirst(rest, name, topics);
        assert first[1..] == SetFirst(rest, name, topics) && every[1..] == SetEvery(rest, name, topics);
      }
    }
  }

  lemma {:induction false} RenameAgrees(folders: seq<Folder>, oldname: string, newname: string)
    ensures RenameFirst(folders, oldname, newname) == RenameEvery(folders, oldname, newname) <==>
            oldname == newname || AtMostOne(folders, oldname)
  {
    var first, every := RenameFirst(folders, oldname, newname), RenameEvery(folders, oldname, newname);
    if folders != [] {
      var rest := folders[1..];
      if folders[0].name == oldname {
        if oldname == newname || AtMostOne(folders, oldname) {
          assert first == every;
        } else {
          var i, j :| 0 <= i < j < |folders| && folders[i].name == oldname && folders[j].name == oldname;
          assert first[j] != every[j];
        }
      } else {
        RenameAgrees(rest, oldname, newname);
        assert every == [folders[0]] + RenameEvery(rest, oldname, newname);
        assert first[1..] == RenameFirst(rest, oldname, newname) && every[1..] == RenameEvery(rest, oldname, newname);
        assert forall i :: 0 <= i < |rest| ==> rest[i] == folders[i + 1];
        if AtMostOne(rest, oldname) {
          forall i, j | 0 <= i < j < |folders| && folders[i].name == oldname
            ensures folders[j].name != oldname
          {
            assert rest[i - 1].name == oldname;
          }
        }
      }
    }
  }

  // Which content an item list leaves for an id: that of the last item.
  lemma {:induction false} PutAllContents(c: Case, items: seq<Item>, id: Id)
    ensures var r := PutAll(c, items);
            && (id in r.contents <==> id in c.contents || exists i :: 0 <= i < |items| && items[i].id == id)
            && (forall i :: 0 <= i < |items| && items[i].id == id
                            && (forall j :: i < j < |items| ==> items[j].id != id) ==>
                  r.contents[id] == items[i].content)
            && ((forall i :: 0 <= i < |items| ==> items[i].id != id) && id in c.contents ==>
                r.contents[id] == c.contents[id])
    decreases |items|
  {
    if items != [] {
      var c1, rest := Put(c, items[0].id, items[0].content), items[1..];
      PutAllContents(c1, rest, id);
      assert forall i :: 0 <= i < |rest| ==> rest[i] == items[i + 1];
      if id == items[0].id {
        assert id in PutAll(c1, rest).contents;
      }
      forall i | 0 <= i < |items| && items[i].id == id && (forall j :: i < j < |items| ==> items[j].id != id)
        ensures PutAll(c, items).contents[id] == items[i].content
      {
        if i > 0 {
          assert rest[i - 1].id == id;
        } else {
          assert forall k :: 0 <= k < |rest| ==> rest[k].id != id;
        }
      }
      if exists i :: 0 <= i < |items| && items[i].id == id {
        var i :| 0 <= i < |items| && items[i].id == id;
        if i > 0 {
          assert rest[i - 1].id == id;
        }
      }
    }
  }

  lemma {:induction false} PutAllTopics(c: Case, items: seq<Item>)
    ensures var r := PutAll(c, items);
            && |r.topics| >= |c.topics| && r.topics[..|c.topics|] == c.topics && r.folders == c.folders
            && (forall id :: id in r.topics <==> id in c.topics || exists i :: 0 <= i < |items| && items[i].id == id)
    decreases |items|
  {
    if items != [] {
      var c1, rest := Put(c, items[0].id, items[0].content), items[1..];
      PutAllTopics(c1, rest);
      assert forall i :: 0 <= i < |rest| ==> rest[i] == items[i + 1];
      var r := PutAll(c1, rest);
      assert r.topics[..|c.topics|] == c1.topics[..|c.topics|] == c.topics;
      forall id
        ensures id in r.topics <==> id in c.topics || exists i :: 0 <= i < |items| && items[i].id == id
      {
        if id in r.topics && id !in c1.topics {
          var i :| 0 <= i < |rest| && rest[i].id == id;
          assert items[i + 1].id == id;
        }
        if exists i :: 0 <= i < |items| && items[i].id == id {
          var i :| 0 <= i < |items| && items[i].id == id;
          if i > 0 {
            assert rest[i - 1].id == id;
          }
        }
      }
    }
  }

  // The last item for an id that items[i] has.
  lemma {:induction false} LastItem(items: seq<Item>, i: nat) returns (r: nat)
    requires i < |items|
    ensures i <= r < |items| && items[r].id == items[i].id
    ensures forall j :: r < j < |items| ==> items[j].id != items[i].id
    decreases |items| - i
  {
    if j :| i < j < |items| && items[j].id == items[i].id {
      r := LastItem(items, j);
    } else {
      r := i;
    }
  }

  lemma PutAllKnown(c: Case, items: seq<Item>)
    ensures PutAll(c, items) == c <==> Known(c, items)
  {
    var r := PutAll(c, items);
    PutAllTopics(c, items);
    if Known(c, items) {
      KnownTopics(c, items);
      forall id
        ensures id in r.contents <==> id in c.contents
        ensures id in c.contents ==> r.contents[id] == c.contents[id]
      {
        PutAllContents(c, items, id);
        if i :| 0 <= i < |items| && items[i].id == id {
          var last := LastItem(items, i);
        }
      }
      assert r.contents == c.contents;
    }
    if r == c {
      forall i | 0 <= i < |items|
        ensures items[i].id in c.topics
        ensures (items[i].id in c.contents && c.contents[items[i].id] == items[i].content) ||
                exists j :: i < j < |items| && items[j].id == items[i].id
      {
        PutAllContents(c, items, items[i].id);
      }
    }
  }

  lemma {:induction false} KnownTopics(c: Case, items: seq<Item>)
    requires forall i :: 0 <= i < |items| ==> items[i].id in c.topics
    ensures PutAll(c, items).topics == c.topics
    decreases |items|
  {
    if items != [] {
      KnownTopics(Put(c, items[0].id, items[0].content), items[1..]);
    }
  }

  /** Server and client do the same with an update exactly when it is agreeable: a folder's name is not
      ambiguous, or it does not matter, and a list of topics says nothing new. */
  lemma HandlersAgree(c: Case, u: Update)
    ensures ServerApply(c, u) == ClientApply(c, u) <==> Agreeable(c, u)
  {
    match u
    case FolderUpdate(name, topics) => SetAgrees(c.folders, name, topics);
    case RenameUpdate(oldname, newname) => RenameAgrees(c.folders, oldname, newname);
    case TopicsUpdate(items) => PutAllKnown(c, items);
    case BulkUpdate(items) => PutAllKnown(c, items);
    case _ =>
  }

  // ----- what clients can see -----

  // The two agree on the topics, their order and contents, and on the folders.
  predicate Same(a: Case, b: Case) {
    && a.topics == b.topics && a.folders == b.folders
    && forall id :: id in a.topics ==> id in a.contents && id in b.contents && a.contents[id] == b.contents[id]
  }

  lemma {:induction false} WithoutSubset(topics: seq<Id>, id: Id)
    ensures forall x :: x in Without(topics, id) ==> x in topics
  {
    if topics != [] && topics[0] != id {
      WithoutSubset(topics[1..], id);
    }
  }

  lemma {:induction false} PutAllSame(a: Case, b: Case, items: seq<Item>)
    requires Same(a, b)
    ensures Same(PutAll(a, items), PutAll(b, items))
    decreases |items|
  {
    if items != [] {
      PutAllSame(Put(a, items[0].id, items[0].content), Put(b, items[0].id, items[0].content), items[1..]);
    }
  }

  /** Clients that see the same still do after the same notification. */
  lemma ApplySame(a: Case, b: Case, u: Update)
    requires Same(a, b)
    ensures Same(ClientApply(a, u), ClientApply(b, u))
  {
    match u
    case BulkUpdate(items) => PutAllSame(a, b, items);
    case DeleteUpdate(id) => WithoutSubset(a.topics, id);
    case _ =>
  }

  // ----- bulk import -----

  // The id that the server gives to a new topic of a case.
  function TopicId(caseid: nat, n: nat): Id {
    "t/" + Decimal(caseid) + "/" + Decimal(n)
  }

  lemma TopicIdInjective(caseid: nat, m: nat, n: nat)
    requires TopicId(caseid, m) == TopicId(caseid, n)
    ensures m == n
  {
    var p := "t/" + Decimal(caseid) + "/";
    assert TopicId(caseid, m)[|p|..] == Decimal(m) && TopicId(caseid, n)[|p|..] == Decimal(n);
    DecimalInjective(m, n);
  }

  function Numbered(caseid: nat, next: nat, contents: seq<Content>): (r: seq<Item>)
    ensures |r| == |contents|
  {
    seq(|contents|, i requires 0 <= i < |contents| => Item(TopicId(caseid, next + i), contents[i]))
  }

  function Ids(items: seq<Item>): (r: seq<Id>)
    ensures |r| == |items|
  {
    seq(|items|, i requires 0 <= i < |items| => items[i].id)
  }

  // The contents of all items, none of them checked for being there already.
  function Store(contents: map<Id, Content>, items: seq<Item>): map<Id, Content>
    decreases |items|
  {
    if items == [] then contents else Store(contents[items[0].id := items[0].content], items[1..])
  }

  function FirstTopics(folders: seq<Folder>, name: string): Option<seq<Id>> {
    if folders == [] then None
    else if folders[0].name == name then Some(folders[0].topics) else FirstTopics(folders[1..], name)
  }

  // Importing topics, optionally into a folder: the new case and the notifications.
  function Import(c: Case, items: seq<Item>, folder: string): (Case, seq<Update>) {
    var ids := Ids(items);
    var added := c.(topics := c.topics + ids, contents := Store(c.contents, items));
    var there := if folder == "" then None else FirstTopics(c.folders, folder);
    if there.None? then (added, [BulkUpdate(items)])
    else
      (added.(folders := SetFirst(c.folders, folder, there.value + ids)),
       [BulkUpdate(items), FolderUpdate(folder, there.value + ids)])
  }

  function ApplyAll(c: Case, us: seq<Update>): Case
    decreases |us|
  {
    if us == [] then c else ApplyAll(ClientApply(c, us[0]), us[1..])
  }

  lemma {:induction false} PutNew(c: Case, items: seq<Item>)
    requires forall i :: 0 <= i < |items| ==> items[i].id !in c.topics
    requires forall i, j :: 0 <= i < j < |items| ==> items[i].id != items[j].id
    ensures PutAll(c, items) == c.(topics := c.topics + Ids(items), contents := Store(c.contents, items))
    decreases |items|
  {
    if items == [] {
      assert c.topics + Ids(items) == c.topics;
    } else {
      var rest := items[1..];
      PutNew(Put(c, items[0].id, items[0].content), rest);
      assert Ids(items) == [items[0].id] + Ids(rest);
      assert c.topics + [items[0].id] + Ids(rest) == c.topics + Ids(items);
    }
  }

  predicate AllNew(c: Case, items: seq<Item>) {
    && (forall i :: 0 <= i < |items| ==> items[i].id !in c.topics)
    && forall i, j :: 0 <= i < j < |items| ==> items[i].id != items[j].id
  }

  lemma {:induction false} PutAllGrows(c: Case, items: seq<Item>)
    ensures |PutAll(c, items).topics| <= |c.topics| + |items|
    ensures |PutAll(c, items).topics| == |c.topics| + |items| ==> AllNew(c, items)
    decreases |items|
  {
    if items != [] {
      var c1, rest := Put(c, items[0].id, items[0].content), items[1..];
      PutAllGrows(c1, rest);
      if |PutAll(c, items).topics| == |c.topics| + |items| {
        assert forall i :: 0 < i < |items| ==> items[i] == rest[i - 1];
      }
    }
  }

  // No other folder has the name, unless it holds the new list already.
  predicate ImportClear(c: Case, items: seq<Item>, folder: string) {
    var there := if folder == "" then None else FirstTopics(c.folders, folder);
    there.Some? ==> OnlyFirst(c.folders, folder, there.value + Ids(items))
  }

  /** Replaying the notifications of an import gives the server's case exactly when all ids are new and the
      folder is not ambiguous. */
  lemma ImportReplay(c: Case, items: seq<Item>, folder: string)
    ensures ApplyAll(c, Import(c, items, folder).1) == Import(c, items, folder).0 <==>
            AllNew(c, items) && ImportClear(c, items, folder)
  {
    var us := Import(c, items, folder).1;
    var c1 := PutAll(c, items);
    PutAllTopics(c, items);
    PutAllGrows(c, items);
    if AllNew(c, items) {
      PutNew(c, items);
    }
    if |us| == 2 {
      assert us[1..] == [us[1]] && [us[1]][1..] == [];
      assert ApplyAll(c1, [us[1]]) == ApplyAll(ClientApply(c1, us[1]), []);
      assert ApplyAll(c, us) == ClientApply(c1, us[1]);
      SetAgrees(c.folders, folder, us[1].topics);
    } else {
      assert us[1..] == [];
      assert ApplyAll(c, us) == c1;
    }
  }

  // ----- redirecting a topic -----

  const IS: Id := "is"

  function Moved(source: Id, target: Id, known: bool): Datum {
    if known then Topic(target) else Str(target)
  }

  // The slots of a qualifier, without those of qualifiers inside it.
  function RedirectQualifier(fields: seq<Field>, source: Id, target: Id, known: bool): (r: seq<Field>)
    ensures |r| == |fields|
  {
    seq(|fields|, i requires 0 <= i < |fields| =>
      if fields[i].value == Topic(source) then fields[i].(value := Moved(source, target, known)) else fields[i])
  }

  function RedirectField(f: Field, source: Id, target: Id, known: bool): Field {
    if f.value == Topic(source) then f.(value := Moved(source, target, known))
    else if f.name == IS then
      if f.value == Str(source) then f.(value := Str(target)) else f
    else if f.value.Qualifier? then f.(value := Qualifier(RedirectQualifier(f.value.fields, source, target, known)))
    else f
  }

  // Whether the server counts a slot as changed.
  predicate Touched(f: Field, source: Id) {
    || f.value == Topic(source)
    || (f.name == IS && f.value == Str(source))
    || (f.name != IS && f.value.Qualifier? && exists i :: 0 <= i < |f.value.fields|
                                                          && f.value.fields[i].value == Topic(source))
  }

  function RedirectContent(content: Content, source: Id, target: Id, known: bool): (r: Content)
    ensures |r| == |content|
  {
    seq(|content|, i requires 0 <= i < |content| => RedirectField(content[i], source, target, known))
  }

  predicate ContentTouched(content: Content, source: Id) {
    exists i :: 0 <= i < |content| && Touched(content[i], source)
  }

  /** A slot that is not touched stays as it is, and afterwards no slot is touched, unless the topic is
      redirected to itself. */
  lemma RedirectExact(content: Content, source: Id, target: Id, known: bool)
    ensures !ContentTouched(content, source) ==> RedirectContent(content, source, target, known) == content
    ensures source != target ==> !ContentTouched(RedirectContent(content, source, target, known), source)
  {
    var r := RedirectContent(content, source, target, known);
    forall i | 0 <= i < |content|
      ensures !Touched(content[i], source) ==> r[i] == content[i]
      ensures source != target ==> !Touched(r[i], source)
    {
      FieldExact(content[i], source, target, known);
    }
  }

  lemma FieldExact(f: Field, source: Id, target: Id, known: bool)
    ensures !Touched(f, source) ==> RedirectField(f, source, target, known) == f
    ensures source != target ==> !Touched(RedirectField(f, source, target, known), source)
  {
    if f.value.Qualifier? && f.name != IS {
      var fs, gs := f.value.fields, RedirectQualifier(f.value.fields, source, target, known);
      if !Touched(f, source) {
        assert gs == fs;
      }
      assert source != target ==> forall i :: 0 <= i < |gs| ==> gs[i].value != Topic(source);
    }
  }

  // The updated topics, in order; the target itself is left alone.
  function RedirectItems(contents: map<Id, Content>, topics: seq<Id>, source: Id, target: Id, known: bool): seq<Item>
    decreases |topics|
  {
    if topics == [] then []
    else
      var t := topics[0];
      if t == target || t !in contents || !ContentTouched(contents[t], source) then
        RedirectItems(contents, topics[1..], source, target, known)
      else
        var content := RedirectContent(contents[t], source, target, known);
        [Item(t, content)] + RedirectItems(contents[t := content], topics[1..], source, target, known)
  }

  // Redirecting source to target: the new case and the notifications.
  function Redirect(c: Case, source: Id, target: Id, known: bool): (Case, seq<Update>) {
    var items := RedirectItems(c.contents, c.topics, source, target, known);
    (c.(contents := Store(c.contents, items)), if items == [] then [] else [BulkUpdate(items)])
  }

  lemma {:induction false} RedirectItemsIn(contents: map<Id, Content>, topics: seq<Id>, source: Id, target: Id,
                                           known: bool)
    ensures forall x :: x in RedirectItems(contents, topics, source, target, known) ==> x.id in topics
    decreases |topics|
  {
    if topics != [] {
      var t := topics[0];
      RedirectItemsIn(contents, topics[1..], source, target, known);
      if t in contents {
        RedirectItemsIn(contents[t := RedirectContent(contents[t], source, target, known)], topics[1..], source, target,
                        known);
      }
    }
  }

  lemma {:induction false} PutPresent(c: Case, items: seq<Item>)
    requires forall x :: x in items ==> x.id in c.topics
    ensures PutAll(c, items) == c.(contents := Store(c.contents, items))
    decreases |items|
  {
    if items != [] {
      assert items[0] in items;
      PutPresent(Put(c, items[0].id, items[0].content), items[1..]);
    }
  }

  /** What a redirect stores: the redirected contents of every topic but the target, and nothing else. */
  lemma {:induction false} RedirectStores(contents: map<Id, Content>, topics: seq<Id>, source: Id, target: Id,
                                          known: bool, t: Id)
    requires source != target && t in contents
    ensures var r := Store(contents, RedirectItems(contents, topics, source, target, known));
            && t in r
            && r[t] == (if t in topics && t != target then RedirectContent(contents[t], source, target, known)
                        else contents[t])
    decreases |topics|
  {
    RedirectExact(contents[t], source, target, known);
    if topics != [] {
      var u, rest := topics[0], topics[1..];
      assert topics == [u] + rest;
      if u == target || u !in contents || !ContentTouched(contents[u], source) {
        RedirectStores(contents, rest, source, target, known, t);
      } else {
        var item := Item(u, RedirectContent(contents[u], source, target, known));
        var after := contents[u := item.content];
        RedirectStores(after, rest, source, target, known, t);
        RedirectExact(after[t], source, target, known);
        var items := RedirectItems(after, rest, source, target, known);
        assert ([item] + items)[1..] == items;
      }
    }
  }

  /** Replaying the notifications of a redirect always gives the server's case. */
  lemma RedirectReplay(c: Case, source: Id, target: Id, known: bool)
    ensures var (c', us) := Redirect(c, source, target, known);
            ApplyAll(c, us) == c'
  {
    var items := RedirectItems(c.contents, c.topics, source, target, known);
    RedirectItemsIn(c.contents, c.topics, source, target, known);
    PutPresent(c, items);
    if items != [] {
      var us := [BulkUpdate(items)];
      assert us[1..] == [];
    }
  }
}
