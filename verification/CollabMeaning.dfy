/**
  What the operations of a collaboration do, slot by slot and folder by folder (case/collabd.cc:927-1182,
  case/app/case.js:1868-1929).
 */
module CollabMeaning {
  import opened Common
  import opened Collab
  import opened CollabRuns

  // ----- redirecting -----

  // What takes the place of a link to the source: a link to the target if there is such a topic, else its id.
  predicate Relinked(before: Datum, after: Datum, source: Id, target: Id, known: bool) {
    after == if before != Topic(source) then before else if known then Topic(target) else Str(target)
  }

  /** A slot after redirecting: the name stays; a link to the source leads to the target, a string with the id of the
      source in an is-slot becomes the id of the target, and so do links in the slots of a qualifier; any other value
      stays. */
  predicate Redirected(f: Field, g: Field, source: Id, target: Id, known: bool) {
    && g.name == f.name
    && if f.value.Topic? then Relinked(f.value, g.value, source, target, known)
       else if f.name == "is" then g.value == if f.value == Str(source) then Str(target) else f.value
       else if f.value.Qualifier? then
         && g.value.Qualifier? && |g.value.fields| == |f.value.fields|
         && forall i :: 0 <= i < |f.value.fields| ==>
              && g.value.fields[i].name == f.value.fields[i].name
              && Relinked(f.value.fields[i].value, g.value.fields[i].value, source, target, known)
       else g.value == f.value
  }

  /** Redirecting changes the contents of the case's topics other than the target, slot by slot, and nothing else. */
  lemma RedirectLinks(c: Case, source: Id, target: Id, known: bool)
    ensures var r := Redirect(c, source, target, known).0;
            && r.topics == c.topics && r.folders == c.folders && r.contents.Keys == c.contents.Keys
            && forall t :: t in c.contents ==>
                 if t !in c.topics || t == target then r.contents[t] == c.contents[t]
                 else
                   && |r.contents[t]| == |c.contents[t]|
                   && forall i :: 0 <= i < |c.contents[t]| ==>
                        Redirected(c.contents[t][i], r.contents[t][i], source, target, known)
  {
    hide Redirected, RedirectItems, Store, RedirectContent;
    var items := RedirectItems(c.contents, c.topics, source, target, known);
    RedirectedKeys(c.contents, c.topics, source, target, known);
    forall t | t in c.contents
      ensures var now := Store(c.contents, items)[t];
              if t !in c.topics || t == target then now == c.contents[t]
              else
                && |now| == |c.contents[t]|
                && forall i :: 0 <= i < |now| ==> Redirected(c.contents[t][i], now[i], source, target, known)
    {
      RedirectStored(c.contents, c.topics, source, target, known, t);
      SlotsRedirected(c.contents[t], source, target, known);
    }
  }

  lemma SlotsRedirected(content: Content, source: Id, target: Id, known: bool)
    ensures var r := RedirectContent(content, source, target, known);
            forall i :: 0 <= i < |content| ==> Redirected(content[i], r[i], source, target, known)
  {
  }

  // Redirecting twice is redirecting once.
  lemma RedirectTwice(content: Content, source: Id, target: Id, known: bool)
    ensures var r := RedirectContent(content, source, target, known);
            RedirectContent(r, source, target, known) == r
  {
    var r := RedirectContent(content, source, target, known);
    forall i | 0 <= i < |r|
      ensures RedirectField(r[i], source, target, known) == r[i]
    {
      FieldTwice(content[i], source, target, known);
    }
  }

  lemma FieldTwice(f: Field, source: Id, target: Id, known: bool)
    ensures var r := RedirectField(f, source, target, known);
            RedirectField(r, source, target, known) == r
  {
    var r := RedirectField(f, source, target, known);
    if f.name != IS && f.value.Qualifier? {
      assert RedirectQualifier(r.value.fields, source, target, known) == r.value.fields;
    }
  }

  lemma {:induction false} RedirectedKeys(contents: map<Id, Content>, topics: seq<Id>, source: Id, target: Id,
                                          known: bool)
    ensures Store(contents, RedirectItems(contents, topics, source, target, known)).Keys == contents.Keys
    decreases |topics|
  {
    hide ContentTouched, RedirectContent;
    if topics != [] {
      var u, rest := topics[0], topics[1..];
      if u == target || u !in contents || !ContentTouched(contents[u], source) {
        RedirectedKeys(contents, rest, source, target, known);
      } else {
        var item := Item(u, RedirectContent(contents[u], source, target, known));
        var after := contents[u := item.content];
        RedirectedKeys(after, rest, source, target, known);
        var items := RedirectItems(after, rest, source, target, known);
        assert ([item] + items)[1..] == items;
      }
    }
  }

  lemma {:induction false} RedirectStored(contents: map<Id, Content>, topics: seq<Id>, source: Id, target: Id,
                                          known: bool, t: Id)
    requires t in contents
    ensures var r := Store(contents, RedirectItems(contents, topics, source, target, known));
            && t in r
            && r[t] == (if t in topics && t != target then RedirectContent(contents[t], source, target, known)
                        else contents[t])
    decreases |topics|
  {
    hide ContentTouched, RedirectContent;
    if topics != [] {
      var u, rest := topics[0], topics[1..];
      assert topics == [u] + rest;
      if u == target || u !in contents || !ContentTouched(contents[u], source) {
        RedirectStored(contents, rest, source, target, known, t);
        if u == t && u != target {
          RedirectExact(contents[u], source, target, known);
        }
      } else {
        var item := Item(u, RedirectContent(contents[u], source, target, known));
        var after := contents[u := item.content];
        RedirectStored(after, rest, source, target, known, t);
        RedirectTwice(contents[u], source, target, known);
        var items := RedirectItems(after, rest, source, target, known);
        assert ([item] + items)[1..] == items;
      }
    }
  }

  // ----- folders -----

  // The first folder with a name.
  predicate First(folders: seq<Folder>, name: string, i: nat) {
    i < |folders| && folders[i].name == name && forall j :: 0 <= j < i ==> folders[j].name != name
  }

  // The folders are the same but for the i-th.
  predicate OnlyFolder(before: seq<Folder>, after: seq<Folder>, i: nat, folder: Folder) {
    && |after| == |before| && i < |before| && after[i] == folder
    && forall j :: 0 <= j < |before| && j != i ==> after[j] == before[j]
  }

  /** On the server, the first folder with the name gets the list of topics, or the new name; when there is none,
      nothing changes. */
  lemma ServerFolder(c: Case, name: string, topics: seq<Id>, newname: string)
    ensures ServerApply(c, FolderUpdate(name, topics)) == c.(folders := SetFirst(c.folders, name, topics))
    ensures ServerApply(c, RenameUpdate(name, newname)) == c.(folders := RenameFirst(c.folders, name, newname))
    ensures forall i: nat :: First(c.folders, name, i) ==>
              && OnlyFolder(c.folders, SetFirst(c.folders, name, topics), i, Folder(name, topics))
              && OnlyFolder(c.folders, RenameFirst(c.folders, name, newname), i, Folder(newname, c.folders[i].topics))
    ensures (forall i :: 0 <= i < |c.folders| ==> c.folders[i].name != name) ==>
              SetFirst(c.folders, name, topics) == RenameFirst(c.folders, name, newname) == c.folders
  {
    forall i: nat | First(c.folders, name, i)
      ensures OnlyFolder(c.folders, SetFirst(c.folders, name, topics), i, Folder(name, topics))
      ensures OnlyFolder(c.folders, RenameFirst(c.folders, name, newname), i, Folder(newname, c.folders[i].topics))
    {
      SetFirstFolder(c.folders, name, topics, newname, i);
    }
    if forall i :: 0 <= i < |c.folders| ==> c.folders[i].name != name {
      NoFolder(c.folders, name, topics, newname);
    }
  }

  lemma {:induction false} SetFirstFolder(folders: seq<Folder>, name: string, topics: seq<Id>, newname: string, i: nat)
    requires First(folders, name, i)
    ensures OnlyFolder(folders, SetFirst(folders, name, topics), i, Folder(name, topics))
    ensures OnlyFolder(folders, RenameFirst(folders, name, newname), i, Folder(newname, folders[i].topics))
  {
    if i > 0 {
      assert First(folders[1..], name, i - 1);
      SetFirstFolder(folders[1..], name, topics, newname, i - 1);
    }
  }

  lemma {:induction false} NoFolder(folders: seq<Folder>, name: string, topics: seq<Id>, newname: string)
    requires forall i :: 0 <= i < |folders| ==> folders[i].name != name
    ensures SetFirst(folders, name, topics) == RenameFirst(folders, name, newname) == folders
  {
    if folders != [] {
      NoFolder(folders[1..], name, topics, newname);
    }
  }

  /** In a client, every folder with the name gets the list of topics, or the new name. */
  lemma ClientFolder(c: Case, name: string, topics: seq<Id>, newname: string)
    ensures var r := ClientApply(c, FolderUpdate(name, topics));
            && r.topics == c.topics && r.contents == c.contents && |r.folders| == |c.folders|
            && forall i :: 0 <= i < |c.folders| ==>
                 r.folders[i] == if c.folders[i].name == name then Folder(name, topics) else c.folders[i]
    ensures var r := ClientApply(c, RenameUpdate(name, newname));
            && r.topics == c.topics && r.contents == c.contents && |r.folders| == |c.folders|
            && forall i :: 0 <= i < |c.folders| ==>
                 && r.folders[i].topics == c.folders[i].topics
                 && r.folders[i].name == if c.folders[i].name == name then newname else c.folders[i].name
  {
  }

  /** A new list of folders has the names in that order; each keeps the topics of the last old folder with its name, and
      is empty when there was none. Both sides do the same. */
  lemma FolderList(c: Case, names: seq<string>)
    ensures var r := ServerApply(c, FoldersUpdate(names));
            && r == ClientApply(c, FoldersUpdate(names)) && r.topics == c.topics && r.contents == c.contents
            && |r.folders| == |names|
            && forall i :: 0 <= i < |names| ==>
                 && r.folders[i].name == names[i]
                 && (forall j :: 0 <= j < |c.folders| && c.folders[j].name == names[i]
                                 && (forall k :: j < k < |c.folders| ==> c.folders[k].name != names[i]) ==>
                       r.folders[i].topics == c.folders[j].topics)
                 && ((forall j :: 0 <= j < |c.folders| ==> c.folders[j].name != names[i]) ==> r.folders[i].topics == [])
  {
    forall i | 0 <= i < |names|
      ensures forall j :: 0 <= j < |c.folders| && c.folders[j].name == names[i]
                          && (forall k :: j < k < |c.folders| ==> c.folders[k].name != names[i]) ==>
                LastTopics(c.folders, names[i]) == Some(c.folders[j].topics)
      ensures (forall j :: 0 <= j < |c.folders| ==> c.folders[j].name != names[i]) ==>
                LastTopics(c.folders, names[i]) == None
    {
      forall j | 0 <= j < |c.folders| && c.folders[j].name == names[i]
                 && (forall k :: j < k < |c.folders| ==> c.folders[k].name != names[i])
        ensures LastTopics(c.folders, names[i]) == Some(c.folders[j].topics)
      {
        LastFolder(c.folders, names[i], j);
      }
      if forall j :: 0 <= j < |c.folders| ==> c.folders[j].name != names[i] {
        NoLast(c.folders, names[i]);
      }
    }
  }

  lemma {:induction false} LastFolder(folders: seq<Folder>, name: string, j: nat)
    requires j < |folders| && folders[j].name == name && forall k :: j < k < |folders| ==> folders[k].name != name
    ensures LastTopics(folders, name) == Some(folders[j].topics)
  {
    if j == 0 {
      NoLast(folders[1..], name);
    } else {
      assert forall k :: j - 1 < k < |folders[1..]| ==> folders[1..][k] == folders[k + 1];
      LastFolder(folders[1..], name, j - 1);
    }
  }

  lemma {:induction false} NoLast(folders: seq<Folder>, name: string)
    requires forall j :: 0 <= j < |folders| ==> folders[j].name != name
    ensures LastTopics(folders, name) == None
  {
    if folders != [] {
      NoLast(folders[1..], name);
    }
  }

  // ----- topics -----

  // A topic's content has been stored; a new topic is the last one.
  ghost predicate Stored(c: Case, r: Case, id: Id, content: Content) {
    && r.folders == c.folders && r.topics == (if id in c.topics then c.topics else c.topics + [id])
    && (forall x :: x in r.contents <==> x == id || x in c.contents)
    && forall x :: x in r.contents ==> r.contents[x] == if x == id then content else c.contents[x]
  }

  /** Both sides store a topic. */
  lemma TopicStored(c: Case, id: Id, content: Content)
    ensures ServerApply(c, TopicUpdate(id, content)) == ClientApply(c, TopicUpdate(id, content))
    ensures Stored(c, ServerApply(c, TopicUpdate(id, content)), id, content)
  {
  }

  /** Both sides drop a deleted topic from the list, the first time it is there, and keep its content. */
  lemma TopicDropped(c: Case, id: Id)
    ensures var r := ServerApply(c, DeleteUpdate(id));
            && r == ClientApply(c, DeleteUpdate(id)) && r.contents == c.contents && r.folders == c.folders
            && (id !in c.topics ==> r.topics == c.topics)
            && forall i :: 0 <= i < |c.topics| && c.topics[i] == id
                           && (forall j :: 0 <= j < i ==> c.topics[j] != id) ==>
                 r.topics == c.topics[..i] + c.topics[i + 1..]
  {
    if id !in c.topics {
      NotThere(c.topics, id);
    }
    forall i | 0 <= i < |c.topics| && c.topics[i] == id && (forall j :: 0 <= j < i ==> c.topics[j] != id)
      ensures Without(c.topics, id) == c.topics[..i] + c.topics[i + 1..]
    {
      WithoutFirst(c.topics, id, i);
    }
  }

  /** The server takes lists of topics from clients, and clients take them from the server: the topics are stored one
      after the other. */
  lemma TopicsStored(c: Case, items: seq<Item>)
    ensures ClientApply(c, TopicsUpdate(items)) == ServerApply(c, BulkUpdate(items)) == c
    ensures ServerApply(c, TopicsUpdate(items)) == ClientApply(c, BulkUpdate(items))
    ensures items == [] ==> ServerApply(c, TopicsUpdate(items)) == c
    ensures items != [] ==>
              var last := items[|items| - 1];
              Stored(ServerApply(c, TopicsUpdate(items[..|items| - 1])), ServerApply(c, TopicsUpdate(items)), last.id,
                     last.content)
  {
    hide PutAll, Stored;
    if items == [] {
      NoItems(c);
    } else {
      var n := |items| - 1;
      LastStored(c, items);
      TopicStored(PutAll(c, items[..n]), items[n].id, items[n].content);
    }
  }

  lemma NoItems(c: Case)
    ensures PutAll(c, []) == c
  {
  }

  lemma {:induction false} NotThere(topics: seq<Id>, id: Id)
    requires id !in topics
    ensures Without(topics, id) == topics
  {
    if topics != [] {
      NotThere(topics[1..], id);
    }
  }

  lemma {:induction false} WithoutFirst(topics: seq<Id>, id: Id, i: nat)
    requires i < |topics| && topics[i] == id && forall j :: 0 <= j < i ==> topics[j] != id
    ensures Without(topics, id) == topics[..i] + topics[i + 1..]
  {
    if i > 0 {
      WithoutFirst(topics[1..], id, i - 1);
      assert topics[1..][..i - 1] == topics[1..i] && topics[1..][i..] == topics[i + 1..];
    }
  }

  lemma {:induction false} LastStored(c: Case, items: seq<Item>)
    requires items != []
    ensures var n := |items| - 1;
            PutAll(c, items) == Put(PutAll(c, items[..n]), items[n].id, items[n].content)
    decreases |items|
  {
    var n := |items| - 1;
    if n > 0 {
      LastStored(Put(c, items[0].id, items[0].content), items[1..]);
      assert items[1..][..n - 1] == items[..n][1..];
    }
  }

  // ----- importing -----

  /** Imported topics come last, in order and with their contents; the first folder with the name, if one is given and
      there is one, gets their ids at its end. */
  lemma Imported(c: Case, items: seq<Item>, folder: string)
    requires forall i, j :: 0 <= i < j < |items| ==> items[i].id != items[j].id
    ensures var r := Import(c, items, folder).0;
            && |r.topics| == |c.topics| + |items| && r.topics[..|c.topics|] == c.topics
            && (forall i :: 0 <= i < |items| ==>
                  && r.topics[|c.topics| + i] == items[i].id
                  && items[i].id in r.contents && r.contents[items[i].id] == items[i].content)
            && (forall x :: x in c.contents && x !in Ids(items) ==> x in r.contents && r.contents[x] == c.contents[x])
            && (folder == "" || (forall i :: 0 <= i < |c.folders| ==> c.folders[i].name != folder) ==>
                  r.folders == c.folders)
            && (folder != "" ==> forall i: nat :: First(c.folders, folder, i) ==>
                  OnlyFolder(c.folders, r.folders, i, Folder(folder, c.folders[i].topics + Ids(items))))
  {
    ContentsStored(c.contents, items);
    if forall i :: 0 <= i < |c.folders| ==> c.folders[i].name != folder {
      NoFirst(c.folders, folder);
    }
    forall i: nat | First(c.folders, folder, i)
      ensures FirstTopics(c.folders, folder) == Some(c.folders[i].topics)
      ensures OnlyFolder(c.folders, SetFirst(c.folders, folder, c.folders[i].topics + Ids(items)), i,
                         Folder(folder, c.folders[i].topics + Ids(items)))
    {
      FirstFolder(c.folders, folder, i);
      SetFirstFolder(c.folders, folder, c.folders[i].topics + Ids(items), folder, i);
    }
  }

  lemma {:induction false} ContentsStored(contents: map<Id, Content>, items: seq<Item>)
    requires forall i, j :: 0 <= i < j < |items| ==> items[i].id != items[j].id
    ensures var r := Store(contents, items);
            && (forall i :: 0 <= i < |items| ==> items[i].id in r && r[items[i].id] == items[i].content)
            && forall x :: x in contents && x !in Ids(items) ==> x in r && r[x] == contents[x]
    decreases |items|
  {
    if items != [] {
      var after, rest := contents[items[0].id := items[0].content], items[1..];
      ContentsStored(after, rest);
      assert Ids(items) == [items[0].id] + Ids(rest);
      assert items[0].id !in Ids(rest);
      assert forall i :: 0 < i < |items| ==> items[i] == rest[i - 1];
    }
  }

  lemma {:induction false} FirstFolder(folders: seq<Folder>, name: string, i: nat)
    requires First(folders, name, i)
    ensures FirstTopics(folders, name) == Some(folders[i].topics)
  {
    if i > 0 {
      assert First(folders[1..], name, i - 1);
      FirstFolder(folders[1..], name, i - 1);
    }
  }

  lemma {:induction false} NoFirst(folders: seq<Folder>, name: string)
    requires forall i :: 0 <= i < |folders| ==> folders[i].name != name
    ensures FirstTopics(folders, name) == None
  {
    if folders != [] {
      NoFirst(folders[1..], name);
    }
  }

  /** Imported topics get the next numbers, in order. */
  lemma NumberedTopics(caseid: nat, next: nat, contents: seq<Content>, i: nat)
    requires i < |contents|
    ensures Numbered(caseid, next, contents)[i] == Item(TopicId(caseid, next + i), contents[i])
    ensures Ids(Numbered(caseid, next, contents))[i] == "t/" + Decimal(caseid) + "/" + Decimal(next + i)
  {
  }

  /** The id of a topic: the letter t, the case and the number of the topic. */
  lemma SomeId()
    ensures TopicId(12, 305) == "t/12/305"
  {
  }

  // ----- sockets -----

  /** A notification is put into the inbox of every client but the one that caused it; no client sees it yet. */
  lemma Delivered(w: World, c: nat)
    requires w.hand.Some? && c in w.sessions
    ensures var s, s' := w.sessions[c], Next(w, Broadcast).sessions[c];
            && s'.view == s.view
            && s'.inbox == if w.hand.value.source == From(c) then s.inbox else s.inbox + [News(w.hand.value.update)]
    ensures Next(w, Broadcast).hand == None && Next(w, Broadcast).sessions.Keys == w.sessions.Keys
  {
  }

  /** Logging in sends the topics, their contents and the folders as they are now; nothing else changes. */
  lemma LoggedIn(w: World, c: nat)
    requires c !in w.sessions
    ensures var w' := Next(w, Login(c));
            && w'.server == w.server && w'.queue == w.queue && w'.hand == w.hand && w'.next == w.next
            && w'.sessions.Keys == w.sessions.Keys + {c} && forall d :: d in w.sessions ==>
               w'.sessions[d] == w.sessions[d]
    ensures var s := Next(w, Login(c)).sessions[c];
            && s.view == None && |s.inbox| == 1 && s.inbox[0].Snapshot?
            && var v := s.inbox[0].view;
               && v.topics == w.server.topics && v.folders == w.server.folders
               && (forall id :: id in v.contents <==> id in w.server.contents && id in w.server.topics)
               && forall id :: id in v.contents ==> v.contents[id] == w.server.contents[id]
  {
  }

  /** An update of a client changes the case at once and is queued with its source; notifications leave the queue in
      order. */
  lemma Sent(w: World, c: nat, u: Update)
    requires c in w.sessions && !u.BulkUpdate?
    ensures var w' := Next(w, Send(c, u));
            w'.server == ServerApply(w.server, u) && w'.queue == w.queue + [Note(From(c), u)]
            && w'.sessions == w.sessions
    ensures w.hand.None? && w.queue != [] ==>
              Next(w, Take).hand == Some(w.queue[0]) && [w.queue[0]] + Next(w, Take).queue == w.queue
  {
  }
}
