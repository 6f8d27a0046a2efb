/**
  The case as server and client hold it: objects that the handlers update in place (case/collabd.cc:921-1192,
  case/app/case.js:1868-1929), and the service that passes notifications on.
 */
module CollabCase {
  import opened Common
  import opened Collab
  import opened CollabRuns

  // ----- what the loops over folders and topics compute -----

  predicate FirstAt(folders: seq<Folder>, name: string, i: nat) {
    && i <= |folders| && (forall j :: 0 <= j < i ==> folders[j].name != name)
    && (i < |folders| ==> folders[i].name == name)
  }

  lemma {:induction false} SetFirstAt(folders: seq<Folder>, name: string, topics: seq<Id>, i: nat)
    requires FirstAt(folders, name, i)
    ensures SetFirst(folders, name, topics) == if i < |folders| then folders[i := Folder(name, topics)] else folders
    ensures FirstTopics(folders, name) == if i < |folders| then Some(folders[i].topics) else None
  {
    if i > 0 {
      SetFirstAt(folders[1..], name, topics, i - 1);
      assert folders == [folders[0]] + folders[1..];
    }
  }

  lemma {:induction false} RenameFirstAt(folders: seq<Folder>, oldname: string, newname: string, i: nat)
    requires FirstAt(folders, oldname, i)
    ensures RenameFirst(folders, oldname, newname) ==
            if i < |folders| then folders[i := Folder(newname, folders[i].topics)] else folders
  {
    if i > 0 {
      RenameFirstAt(folders[1..], oldname, newname, i - 1);
      assert folders == [folders[0]] + folders[1..];
    }
  }

  lemma {:induction false} LastTopicsPush(folders: seq<Folder>, f: Folder, name: string)
    ensures LastTopics(folders + [f], name) == if f.name == name then Some(f.topics) else LastTopics(folders, name)
  {
    if folders == [] {
      assert folders + [f] == [f] && [f][1..] == [];
    } else {
      LastTopicsPush(folders[1..], f, name);
      assert (folders + [f])[1..] == folders[1..] + [f];
    }
  }

  // The topics of every folder by name; of folders with the same name the last one counts.
  method FolderMap(folders: seq<Folder>) returns (m: map<string, seq<Id>>)
    ensures forall name :: name in m <==> LastTopics(folders, name).Some?
    ensures forall name :: name in m ==> LastTopics(folders, name) == Some(m[name])
  {
    m := map[];
    for i := 0 to |folders|
      invariant forall name :: LastTopics(folders[..i], name) == if name in m then Some(m[name]) else None
    {
      ghost var before := m;
      m := m[folders[i].name := folders[i].topics];
      assert folders[..i + 1] == folders[..i] + [folders[i]];
      forall name
        ensures LastTopics(folders[..i + 1], name) == if name in m then Some(m[name]) else None
      {
        LastTopicsPush(folders[..i], folders[i], name);
        assert LastTopics(folders[..i], name) == if name in before then Some(before[name]) else None;
      }
    }
    assert folders[..|folders|] == folders;
  }

  method NewFolders(folders: seq<Folder>, names: seq<string>) returns (r: seq<Folder>)
    ensures r == Rearranged(folders, names)
  {
    var m := FolderMap(folders);
    r := [];
    for i := 0 to |names|
      invariant |r| == i && forall j :: 0 <= j < i ==> r[j] == Rearranged(folders, names)[j]
    {
      r := r + [Folder(names[i], if names[i] in m then m[names[i]] else [])];
    }
  }

  lemma {:induction false} WithoutAt(topics: seq<Id>, id: Id, i: nat)
    requires i < |topics| && topics[i] == id && id !in topics[..i]
    ensures Without(topics, id) == topics[..i] + topics[i + 1..]
  {
    if i > 0 {
      assert topics[0] in topics[..i];
      assert topics[1..][..i - 1] == topics[..i][1..];
      WithoutAt(topics[1..], id, i - 1);
      assert topics[..i] == [topics[0]] + topics[1..][..i - 1];
      assert topics[1..][i..] == topics[i + 1..];
    }
  }

  lemma {:induction false} WithoutAbsent(topics: seq<Id>, id: Id)
    requires id !in topics
    ensures Without(topics, id) == topics
  {
    if topics != [] {
      WithoutAbsent(topics[1..], id);
      assert topics == [topics[0]] + topics[1..];
    }
  }

  // Removing the first occurrence of an id.
  method Erase(topics: seq<Id>, id: Id) returns (r: seq<Id>, found: bool)
    ensures r == Without(topics, id) && found == (id in topics)
  {
    var i := 0;
    while i < |topics| && topics[i] != id
      invariant 0 <= i <= |topics| && id !in topics[..i]
    {
      i := i + 1;
    }
    if i < |topics| {
      WithoutAt(topics, id, i);
      return topics[..i] + topics[i + 1..], true;
    }
    assert topics[..i] == topics;
    WithoutAbsent(topics, id);
    return topics, false;
  }

  // ----- the server's case -----

  class ServerCase {
    const caseid: nat
    var topics: seq<Id>
    var contents: map<Id, Content>
    var folders: seq<Folder>
    var next: nat
    var dirty: bool

    function View(): Case
      reads this
    {
      Case(topics, contents, folders)
    }

    constructor (caseid: nat, view: Case, next: nat)
      ensures this.caseid == caseid && View() == view && this.next == next && dirty
    {
      this.caseid := caseid;
      topics, contents, folders := view.topics, view.contents, view.folders;
      this.next := next;
      dirty := true;
    }

    method NewTopicId() returns (id: nat)
      modifies this`next
      ensures id == old(next) && next == id + 1
    {
      id := next;
      next := next + 1;
    }

    method PutTopic(id: Id, content: Content)
      modifies this`topics, this`contents
      ensures View() == Put(old(View()), id, content)
    {
      if id !in topics {
        topics := topics + [id];
      }
      contents := contents[id := content];
    }

    /** Handling an update; false, with nothing changed, when it is not valid. */
    method Update(u: Update) returns (ok: bool)
      modifies this`topics, this`contents, this`folders, this`dirty
      ensures ok == !u.BulkUpdate? && View() == ServerApply(old(View()), u)
      ensures View() != old(View()) ==> dirty
      ensures old(dirty) ==> dirty
    {
      ok := true;
      match u {
        case TopicUpdate(id, content) =>
          PutTopic(id, content);
          dirty := true;
        case TopicsUpdate(items) =>
          PutTopics(items);
          dirty := true;
        case BulkUpdate(_) => ok := false;
        case FolderUpdate(name, ids) =>
          SetFolder(name, ids);
          dirty := true;
        case FoldersUpdate(names) =>
          folders := NewFolders(folders, names);
          dirty := true;
        case DeleteUpdate(id) =>
          var found;
          topics, found := Erase(topics, id);
          if found {
            dirty := true;
          } else {
            WithoutAbsent(old(topics), id);
          }
        case RenameUpdate(oldname, newname) => RenameFolder(oldname, newname);
        case Saved(_) =>
      }
    }

    method PutTopics(items: seq<Item>)
      modifies this`topics, this`contents
      ensures View() == PutAll(old(View()), items)
    {
      var i := 0;
      while i < |items|
        invariant 0 <= i <= |items| && folders == old(folders)
        invariant PutAll(View(), items[i..]) == PutAll(old(View()), items)
      {
        assert items[i..][0] == items[i] && items[i..][1..] == items[i + 1..];
        PutTopic(items[i].id, items[i].content);
        i := i + 1;
      }
    }

    method SetFolder(name: string, ids: seq<Id>)
      modifies this`folders
      ensures folders == SetFirst(old(folders), name, ids)
    {
      var i := FindFolder(name);
      SetFirstAt(folders, name, ids, i);
      if i < |folders| {
        folders := folders[i := Folder(name, ids)];
      }
    }

    method RenameFolder(oldname: string, newname: string)
      modifies this`folders, this`dirty
      ensures folders == RenameFirst(old(folders), oldname, newname)
      ensures (folders != old(folders) ==> dirty) && (old(dirty) ==> dirty)
    {
      var i := FindFolder(oldname);
      RenameFirstAt(folders, oldname, newname, i);
      if i < |folders| {
        folders := folders[i := Folder(newname, folders[i].topics)];
        dirty := true;
      }
    }

    // The first folder with a name, or the number of folders.
    method FindFolder(name: string) returns (i: nat)
      ensures FirstAt(folders, name, i)
    {
      i := 0;
      while i < |folders| && folders[i].name != name
        invariant 0 <= i <= |folders| && forall j :: 0 <= j < i ==> folders[j].name != name
      {
        i := i + 1;
      }
    }

    /** Bulk import: every topic gets a new id, and all are added to the case and to a folder, if there is one
        of that name. Returns the notifications for all clients. */
    method ImportTopics(folder: string, imported: seq<Content>) returns (notes: seq<Update>)
      modifies this
      ensures next == old(next) + |imported| && dirty
      ensures (View(), notes) == Import(old(View()), Numbered(caseid, old(next), imported), folder)
    {
      ghost var spec := Numbered(caseid, next, imported);
      var items, i := [], 0;
      while i < |imported|
        invariant 0 <= i <= |imported| && items == spec[..i] && next == old(next) + i
        invariant topics == old(topics) && folders == old(folders)
        invariant Store(contents, spec[i..]) == Store(old(contents), spec)
      {
        assert spec[i..][0] == spec[i] && spec[i..][1..] == spec[i + 1..];
        var id := NewTopicId();
        var item := Item(TopicId(caseid, id), imported[i]);
        contents := contents[item.id := item.content];
        items := items + [item];
        i := i + 1;
      }
      assert items == spec && spec[i..] == [] && contents == Store(old(contents), spec);
      topics := topics + Ids(items);
      notes := [BulkUpdate(items)];
      if folder != "" {
        var n := FindFolder(folder);
        SetFirstAt(folders, folder, if n < |folders| then folders[n].topics + Ids(items) else [], n);
        if n < |folders| {
          folders := folders[n := Folder(folder, folders[n].topics + Ids(items))];
          notes := [BulkUpdate(items), FolderUpdate(folder, folders[n].topics)];
        }
      }
      dirty := true;
      assert View() == Import(old(View()), spec, folder).0;
    }

    /** Redirecting one topic to another in the contents of all topics. */
    method RedirectTopic(source: Id, target: Id, known: bool) returns (notes: seq<Update>)
      modifies this`contents, this`dirty
      ensures (View(), notes) == Redirect(old(View()), source, target, known)
      ensures (notes != [] ==> dirty) && (old(dirty) ==> dirty)
    {
      hide RedirectItems, RedirectContent, ContentTouched;
      var updates, i := [], 0;
      ghost var c := View();
      ghost var all := RedirectItems(contents, topics, source, target, known);
      assert topics[0..] == topics && [] + all == all;
      while i < |topics|
        invariant 0 <= i <= |topics| && dirty == old(dirty)
        invariant all == updates + RedirectItems(contents, topics[i..], source, target, known)
        invariant Store(contents, RedirectItems(contents, topics[i..], source, target, known)) == Store(c.contents, all)
      {
        var t := topics[i];
        RedirectStep(contents, topics, i, source, target, known);
        if t != target && t in contents && ContentTouched(contents[t], source) {
          var item := Item(t, RedirectContent(contents[t], source, target, known));
          contents := contents[t := item.content];
          ghost var rest := RedirectItems(contents, topics[i + 1..], source, target, known);
          assert ([item] + rest)[0] == item && ([item] + rest)[1..] == rest;
          assert updates + ([item] + rest) == updates + [item] + rest;
          updates := updates + [item];
        }
        i := i + 1;
      }
      RedirectNone(contents, topics[i..], source, target, known);
      notes := [];
      if updates != [] {
        notes := [BulkUpdate(updates)];
        dirty := true;
      }
      assert updates + [] == updates;
      assert View() == Redirect(c, source, target, known).0;
    }
  }

  lemma RedirectStep(contents: map<Id, Content>, topics: seq<Id>, i: nat, source: Id, target: Id, known: bool)
    requires i < |topics|
    ensures var t := topics[i];
            RedirectItems(contents, topics[i..], source, target, known) ==
            if t == target || t !in contents || !ContentTouched(contents[t], source) then
              RedirectItems(contents, topics[i + 1..], source, target, known)
            else
              var content := RedirectContent(contents[t], source, target, known);
              [Item(t, content)] + RedirectItems(contents[t := content], topics[i + 1..], source, target, known)
  {
    assert topics[i..][0] == topics[i] && topics[i..][1..] == topics[i + 1..];
  }

  lemma RedirectNone(contents: map<Id, Content>, topics: seq<Id>, source: Id, target: Id, known: bool)
    requires topics == []
    ensures RedirectItems(contents, topics, source, target, known) == []
  {
  }

  // ----- the client's case -----

  class ClientCase {
    var topics: seq<Id>
    var contents: map<Id, Content>
    var folders: seq<Folder>

    function View(): Case
      reads this
    {
      Case(topics, contents, folders)
    }

    constructor (view: Case)
      ensures View() == view
    {
      topics, contents, folders := view.topics, view.contents, view.folders;
    }

    // What a notification does.
    method Receive(u: Update)
      modifies this
      ensures View() == ClientApply(old(View()), u)
    {
      match u {
        case TopicUpdate(id, content) => RemoteTopicUpdate([Item(id, content)]);
        case TopicsUpdate(_) =>
        case BulkUpdate(items) => RemoteTopicUpdate(items);
        case FolderUpdate(name, ids) => RemoteFolderUpdate(name, ids);
        case FoldersUpdate(names) => folders := NewFolders(folders, names);
        case DeleteUpdate(id) => RemoteTopicDelete(id);
        case RenameUpdate(oldname, newname) => RemoteFolderRename(oldname, newname);
        case Saved(_) =>
      }
      if u.TopicUpdate? {
        assert [Item(u.id, u.content)][1..] == [];
        assert PutAll(old(View()), [Item(u.id, u.content)]) == PutAll(Put(old(View()), u.id, u.content), []);
      }
    }

    method RemoteTopicUpdate(items: seq<Item>)
      modifies this`topics, this`contents
      ensures View() == PutAll(old(View()), items)
    {
      var i := 0;
      while i < |items|
        invariant 0 <= i <= |items| && folders == old(folders)
        invariant PutAll(View(), items[i..]) == PutAll(old(View()), items)
      {
        assert items[i..][0] == items[i] && items[i..][1..] == items[i + 1..];
        if items[i].id !in topics {
          topics := topics + [items[i].id];
        }
        contents := contents[items[i].id := items[i].content];
        i := i + 1;
      }
    }

    method RemoteFolderUpdate(name: string, ids: seq<Id>)
      modifies this`folders
      ensures folders == SetEvery(old(folders), name, ids)
    {
      var i := 0;
      while i < |folders|
        invariant 0 <= i <= |folders| == |old(folders)|
        invariant forall j :: 0 <= j < i ==> folders[j] == SetEvery(old(folders), name, ids)[j]
        invariant forall j :: i <= j < |folders| ==> folders[j] == old(folders)[j]
      {
        if folders[i].name == name {
          folders := folders[i := Folder(name, ids)];
        }
        i := i + 1;
      }
    }

    method RemoteTopicDelete(id: Id)
      modifies this`topics
      ensures topics == Without(old(topics), id)
    {
      var found;
      topics, found := Erase(topics, id);
    }

    method RemoteFolderRename(oldname: string, newname: string)
      modifies this`folders
      ensures folders == RenameEvery(old(folders), oldname, newname)
    {
      var i := 0;
      while i < |folders|
        invariant 0 <= i <= |folders| == |old(folders)|
        invariant forall j :: 0 <= j < i ==> folders[j] == RenameEvery(old(folders), oldname, newname)[j]
        invariant forall j :: i <= j < |folders| ==> folders[j] == old(folders)[j]
      {
        if folders[i].name == oldname {
          folders := folders[i := Folder(newname, folders[i].topics)];
        }
        i := i + 1;
      }
    }
  }

  // ----- passing notifications on -----

  // The queue of the service and the sockets of the clients of a case, in the order they logged in.
  class Service {
    var queue: seq<Note>
    var hand: Option<Note>
    var clients: seq<nat>
    var sessions: map<nat, Session>

    ghost predicate Valid()
      reads this
    {
      && (forall c :: c in clients <==> c in sessions)
      && forall i, j :: 0 <= i < j < |clients| ==> clients[i] != clients[j]
    }

    method Notify(source: Source, update: Update)
      modifies this`queue
      ensures queue == old(queue) + [Note(source, update)]
    {
      queue := queue + [Note(source, update)];
    }

    // The monitor takes the first notification.
    method TakeNote()
      requires hand.None? && queue != []
      modifies this`queue, this`hand
      ensures hand == Some(old(queue)[0]) && queue == old(queue)[1..]
    {
      hand := Some(queue[0]);
      queue := queue[1..];
    }

    /** The monitor sends the notification to every client but its source. */
    method SendNote()
      requires Valid() && hand.Some?
      modifies this`sessions, this`hand
      ensures Valid() && hand.None? && sessions == Deliver(old(sessions), old(hand).value)
    {
      var note, i := hand.value, 0;
      ghost var after := Deliver(sessions, note);
      while i < |clients|
        invariant 0 <= i <= |clients| && Valid() && sessions.Keys == after.Keys
        invariant forall j :: 0 <= j < i ==> sessions[clients[j]] == after[clients[j]]
        invariant forall j :: i <= j < |clients| ==> sessions[clients[j]] == old(sessions)[clients[j]]
      {
        var c := clients[i];
        if note.source != From(c) {
          sessions := sessions[c := sessions[c].(inbox := sessions[c].inbox + [News(note.update)])];
        }
        i := i + 1;
      }
      hand := None;
      forall c | c in sessions
        ensures sessions[c] == after[c]
      {
        var j :| 0 <= j < |clients| && clients[j] == c;
      }
    }
  }
}
