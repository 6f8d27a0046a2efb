/**
  Clients that write. A client applies its own update at once and sends it; until the server has handled it,
  others' updates may reach the server first. When updates under way in opposite directions touch different
  topics and folders, the writer still converges, up to the order of topics.
 */
module CollabWriters {
  import opened Common
  import opened Collab
  import opened CollabRuns

  // ----- independent updates -----

  function TopicsOf(u: Update): set<Id> {
    match u
    case TopicUpdate(id, _) => {id}
    case BulkUpdate(items) => set x | x in items :: x.id
    case DeleteUpdate(id) => {id}
    case _ => {}
  }

  function NamesOf(u: Update): set<string> {
    match u
    case FolderUpdate(name, _) => {name}
    case RenameUpdate(oldname, newname) => {oldname, newname}
    case _ => {}
  }

  predicate Independent(u: Update, v: Update) {
    && TopicsOf(u) !! TopicsOf(v) && NamesOf(u) !! NamesOf(v)
    && (u.FoldersUpdate? ==> !v.FoldersUpdate? && NamesOf(v) == {})
    && (v.FoldersUpdate? ==> NamesOf(u) == {})
  }

  predicate IndependentAll(u: Update, us: seq<Update>) {
    forall v :: v in us ==> Independent(u, v)
  }

  predicate NoDuplicates(topics: seq<Id>) {
    forall i, j :: 0 <= i < j < |topics| ==> topics[i] != topics[j]
  }

  // The two agree on the set of topics, on their contents, and on the folders.
  ghost predicate Alike(a: Case, b: Case) {
    && NoDuplicates(a.topics) && NoDuplicates(b.topics) && a.folders == b.folders
    && (forall id :: id in a.topics <==> id in b.topics)
    && forall id :: id in a.topics ==> id in a.contents && id in b.contents && a.contents[id] == b.contents[id]
  }

  lemma AlikeTransitive(a: Case, b: Case, c: Case)
    requires Alike(a, b) && Alike(b, c)
    ensures Alike(a, c)
  {
  }

  lemma {:induction false} WithoutExact(topics: seq<Id>, id: Id)
    requires NoDuplicates(topics)
    ensures NoDuplicates(Without(topics, id))
    ensures forall x :: x in Without(topics, id) <==> x in topics && x != id
  {
    if topics != [] && topics[0] != id {
      var rest := topics[1..];
      assert NoDuplicates(rest);
      WithoutExact(rest, id);
      var w := Without(rest, id);
      assert topics[0] !in rest;
      assert topics == [topics[0]] + rest;
    } else if topics != [] {
      assert topics == [topics[0]] + topics[1..];
      assert forall x :: x in topics[1..] ==> x != id;
    }
  }

  lemma PutAlike(a: Case, b: Case, id: Id, content: Content)
    requires Alike(a, b)
    ensures Alike(Put(a, id, content), Put(b, id, content))
  {
  }

  lemma {:induction false} PutAllAlike(a: Case, b: Case, items: seq<Item>)
    requires Alike(a, b)
    ensures Alike(PutAll(a, items), PutAll(b, items))
    decreases |items|
  {
    if items != [] {
      PutAlike(a, b, items[0].id, items[0].content);
      PutAllAlike(Put(a, items[0].id, items[0].content), Put(b, items[0].id, items[0].content), items[1..]);
    }
  }

  lemma ApplyAlike(a: Case, b: Case, u: Update)
    requires Alike(a, b)
    ensures Alike(ClientApply(a, u), ClientApply(b, u))
  {
    match u
    case TopicUpdate(id, content) => PutAlike(a, b, id, content);
    case BulkUpdate(items) => PutAllAlike(a, b, items);
    case DeleteUpdate(id) =>
      WithoutExact(a.topics, id);
      WithoutExact(b.topics, id);
    case _ =>
  }

  lemma {:induction false} ApplyAllAlike(a: Case, b: Case, us: seq<Update>)
    requires Alike(a, b)
    ensures Alike(ApplyAll(a, us), ApplyAll(b, us))
    decreases |us|
  {
    if us != [] {
      ApplyAlike(a, b, us[0]);
      ApplyAllAlike(ClientApply(a, us[0]), ClientApply(b, us[0]), us[1..]);
    }
  }

  // ----- independent updates commute -----

  // Updates of topics leave the folders alone, and the other way round.
  predicate AboutTopics(u: Update) {
    u.TopicUpdate? || u.BulkUpdate? || u.DeleteUpdate? || u.TopicsUpdate? || u.Saved?
  }

  lemma {:induction false} PutAllPast(c: Case, items: seq<Item>, id: Id, content: Content)
    requires Alike(c, c) && forall x :: x in items ==> x.id != id
    ensures Alike(PutAll(Put(c, id, content), items), Put(PutAll(c, items), id, content))
    decreases |items|
  {
    if items == [] {
      PutAlike(c, c, id, content);
    } else {
      var x, rest := items[0], items[1..];
      assert x in items;
      var a, b := Put(Put(c, id, content), x.id, x.content), Put(Put(c, x.id, x.content), id, content);
      PutAlike(c, c, x.id, x.content);
      assert Alike(a, b);
      PutAllAlike(a, b, rest);
      PutAllPast(Put(c, x.id, x.content), rest, id, content);
      AlikeTransitive(PutAll(a, rest), PutAll(b, rest), Put(PutAll(Put(c, x.id, x.content), rest), id, content));
    }
  }

  lemma {:induction false} BulkPastBulk(c: Case, items: seq<Item>, others: seq<Item>)
    requires Alike(c, c) && forall x, y :: x in items && y in others ==> x.id != y.id
    ensures Alike(PutAll(PutAll(c, items), others), PutAll(PutAll(c, others), items))
    decreases |items|
  {
    if items == [] {
      PutAllAlike(c, c, others);
    } else {
      var x, rest := items[0], items[1..];
      assert x in items;
      var c1 := Put(c, x.id, x.content);
      PutAlike(c, c, x.id, x.content);
      BulkPastBulk(c1, rest, others);
      PutAllPast(c, others, x.id, x.content);
      PutAllAlike(PutAll(c1, others), Put(PutAll(c, others), x.id, x.content), rest);
      AlikeTransitive(PutAll(PutAll(c1, rest), others), PutAll(PutAll(c1, others), rest),
                      PutAll(Put(PutAll(c, others), x.id, x.content), rest));
    }
  }

  lemma DeletePastPut(c: Case, gone: Id, id: Id, content: Content)
    requires Alike(c, c) && gone != id
    ensures var d := c.(topics := Without(c.topics, gone));
            var e := Put(c, id, content);
            Alike(Put(d, id, content), e.(topics := Without(e.topics, gone)))
  {
    var e := Put(c, id, content);
    WithoutExact(c.topics, gone);
    WithoutExact(e.topics, gone);
  }

  lemma {:induction false} DeletePastBulk(c: Case, gone: Id, items: seq<Item>)
    requires Alike(c, c) && forall x :: x in items ==> x.id != gone
    ensures Alike(PutAll(ClientApply(c, DeleteUpdate(gone)), items), ClientApply(PutAll(c, items), DeleteUpdate(gone)))
    decreases |items|
  {
    var d := ClientApply(c, DeleteUpdate(gone));
    if items == [] {
      ApplyAlike(c, c, DeleteUpdate(gone));
    } else {
      var x, rest := items[0], items[1..];
      assert x in items;
      var c1 := Put(c, x.id, x.content);
      PutAlike(c, c, x.id, x.content);
      DeletePastPut(c, gone, x.id, x.content);
      DeletePastBulk(c1, gone, rest);
      PutAllAlike(Put(d, x.id, x.content), ClientApply(c1, DeleteUpdate(gone)), rest);
      AlikeTransitive(PutAll(Put(d, x.id, x.content), rest), PutAll(ClientApply(c1, DeleteUpdate(gone)), rest),
                      ClientApply(PutAll(c1, rest), DeleteUpdate(gone)));
    }
  }

  lemma DeletePastDelete(c: Case, a: Id, b: Id)
    requires Alike(c, c)
    ensures Alike(ClientApply(ClientApply(c, DeleteUpdate(a)), DeleteUpdate(b)),
                  ClientApply(ClientApply(c, DeleteUpdate(b)), DeleteUpdate(a)))
  {
    WithoutExact(c.topics, a);
    WithoutExact(c.topics, b);
    WithoutExact(Without(c.topics, a), b);
    WithoutExact(Without(c.topics, b), a);
  }

  // A single topic is a list of one.
  function Items(u: Update): seq<Item>
    requires u.TopicUpdate? || u.BulkUpdate?
  {
    if u.TopicUpdate? then [Item(u.id, u.content)] else u.items
  }

  lemma ItemsApply(c: Case, u: Update)
    requires u.TopicUpdate? || u.BulkUpdate?
    ensures ClientApply(c, u) == PutAll(c, Items(u)) && TopicsOf(u) == set x | x in Items(u) :: x.id
  {
    if u.TopicUpdate? {
      assert Items(u)[1..] == [];
      assert PutAll(c, Items(u)) == PutAll(Put(c, u.id, u.content), []);
      assert Item(u.id, u.content) in Items(u);
    }
  }

  lemma TopicsCommute(c: Case, u: Update, v: Update)
    requires Alike(c, c) && TopicsOf(u) !! TopicsOf(v)
    requires (u.TopicUpdate? || u.BulkUpdate? || u.DeleteUpdate?)
    requires (v.TopicUpdate? || v.BulkUpdate? || v.DeleteUpdate?)
    ensures Alike(ClientApply(ClientApply(c, u), v), ClientApply(ClientApply(c, v), u))
  {
    if u.DeleteUpdate? && v.DeleteUpdate? {
      DeletePastDelete(c, u.id, v.id);
    } else if u.DeleteUpdate? {
      DeletePast(c, u, v);
    } else if v.DeleteUpdate? {
      DeletePast(c, v, u);
      AlikeBack(ClientApply(ClientApply(c, v), u), ClientApply(ClientApply(c, u), v));
    } else {
      ItemsApply(c, u);
      ItemsApply(c, v);
      ItemsApply(ClientApply(c, u), v);
      ItemsApply(ClientApply(c, v), u);
      assert forall x :: x in Items(u) ==> x.id in TopicsOf(u);
      assert forall x :: x in Items(v) ==> x.id in TopicsOf(v);
      BulkPastBulk(c, Items(u), Items(v));
    }
  }

  lemma AlikeBack(a: Case, b: Case)
    requires Alike(a, b)
    ensures Alike(b, a)
  {
  }

  lemma DeletePast(c: Case, u: Update, v: Update)
    requires Alike(c, c) && TopicsOf(u) !! TopicsOf(v) && u.DeleteUpdate? && (v.TopicUpdate? || v.BulkUpdate?)
    ensures Alike(ClientApply(ClientApply(c, u), v), ClientApply(ClientApply(c, v), u))
  {
    ItemsApply(c, v);
    ItemsApply(ClientApply(c, u), v);
    assert forall x :: x in Items(v) ==> x.id in TopicsOf(v);
    DeletePastBulk(c, u.id, Items(v));
  }

  lemma FoldersCommute(fs: seq<Folder>, u: Update, v: Update)
    requires NamesOf(u) !! NamesOf(v) && (u.FolderUpdate? || u.RenameUpdate?) && (v.FolderUpdate? || v.RenameUpdate?)
    ensures var c := Case([], map[], fs);
            ClientApply(ClientApply(c, u), v).folders == ClientApply(ClientApply(c, v), u).folders
  {
  }

  // An update of topics and an update of folders.
  lemma MixedCommute(c: Case, u: Update, v: Update)
    requires Alike(c, c) && AboutTopics(u) && !AboutTopics(v)
    ensures ClientApply(ClientApply(c, u), v) == ClientApply(ClientApply(c, v), u)
    ensures Alike(ClientApply(ClientApply(c, u), v), ClientApply(ClientApply(c, u), v))
  {
    ApplyAlike(c, c, u);
    ApplyAlike(ClientApply(c, u), ClientApply(c, u), v);
    if u.BulkUpdate? {
      PutAllFolders(c, v, u.items);
    }
  }

  lemma {:induction false} PutAllFolders(c: Case, v: Update, items: seq<Item>)
    requires !AboutTopics(v)
    ensures ClientApply(PutAll(c, items), v) == PutAll(ClientApply(c, v), items)
    decreases |items|
  {
    if items != [] {
      PutAllFolders(Put(c, items[0].id, items[0].content), v, items[1..]);
    }
  }

  /** Independent updates can be replayed in either order. */
  lemma Commutes(c: Case, u: Update, v: Update)
    requires Alike(c, c) && Independent(u, v)
    ensures Alike(ClientApply(ClientApply(c, u), v), ClientApply(ClientApply(c, v), u))
  {
    if AboutTopics(u) && !AboutTopics(v) {
      MixedCommute(c, u, v);
    } else if !AboutTopics(u) && AboutTopics(v) {
      MixedCommute(c, v, u);
    } else if AboutTopics(u) {
      ApplyAlike(c, c, u);
      ApplyAlike(c, c, v);
      if !(u.TopicsUpdate? || u.Saved? || v.TopicsUpdate? || v.Saved?) {
        TopicsCommute(c, u, v);
      }
    } else {
      FoldersCommute(c.folders, u, v);
    }
  }

  lemma {:induction false} CommutesAll(c: Case, u: Update, us: seq<Update>)
    requires Alike(c, c) && IndependentAll(u, us)
    ensures Alike(ApplyAll(ClientApply(c, u), us), ClientApply(ApplyAll(c, us), u))
    decreases |us|
  {
    ApplyAlike(c, c, u);
    if us != [] {
      var v, rest := us[0], us[1..];
      assert v in us;
      Commutes(c, u, v);
      ApplyAlike(c, c, v);
      ApplyAllAlike(ClientApply(ClientApply(c, u), v), ClientApply(ClientApply(c, v), u), rest);
      CommutesAll(ClientApply(c, v), u, rest);
      AlikeTransitive(ApplyAll(ClientApply(ClientApply(c, u), v), rest),
                      ApplyAll(ClientApply(ClientApply(c, v), u), rest),
                      ClientApply(ApplyAll(ClientApply(c, v), rest), u));
    }
  }

  lemma {:induction false} AllCommuteAll(c: Case, vs: seq<Update>, us: seq<Update>)
    requires Alike(c, c) && forall v :: v in vs ==> IndependentAll(v, us)
    ensures Alike(ApplyAll(ApplyAll(c, vs), us), ApplyAll(ApplyAll(c, us), vs))
    decreases |vs|
  {
    if vs == [] {
      ApplyAllAlike(c, c, us);
    } else {
      var v, rest := vs[0], vs[1..];
      assert v in vs;
      ApplyAlike(c, c, v);
      AllCommuteAll(ClientApply(c, v), rest, us);
      CommutesAll(c, v, us);
      ApplyAllAlike(ApplyAll(ClientApply(c, v), us), ClientApply(ApplyAll(c, us), v), rest);
      AlikeTransitive(ApplyAll(ApplyAll(c, vs), us), ApplyAll(ApplyAll(ClientApply(c, v), us), rest),
                      ApplyAll(ApplyAll(c, us), vs));
    }
  }

  // ----- a writing client -----

  /** A run seen from client f: its socket to the server holds the updates that it has applied and sent. */
  datatype Writing = Writing(world: World, outbox: seq<Update>)

  datatype Move = Others(step: Step) | Write(update: Update) | Arrive

  // The updates waiting in a socket.
  function Incoming(inbox: seq<Message>): seq<Update>
    decreases |inbox|
  {
    if inbox == [] then []
    else (if inbox[0].News? then [inbox[0].update] else []) + Incoming(inbox[1..])
  }

  predicate NoSnapshot(inbox: seq<Message>) {
    forall m :: m in inbox ==> !m.Snapshot?
  }

  function Advance(w: Writing, move: Move, f: nat): Writing {
    match move
    case Others(step) => w.(world := Next(w.world, step))
    case Write(u) =>
      if f !in w.world.sessions || w.world.sessions[f].view.None? then w
      else
        var s := w.world.sessions[f];
        Writing(w.world.(sessions := w.world.sessions[f := s.(view := Some(ClientApply(s.view.value, u)))]),
                w.outbox + [u])
    case Arrive =>
      if w.outbox == [] then w else Writing(Next(w.world, Send(f, w.outbox[0])), w.outbox[1..])
  }

  // All updates on their way to client f.
  function ComingTo(w: World, f: nat): seq<Update>
    requires f in w.sessions
  {
    Incoming(w.sessions[f].inbox) + For(Pending(w), f)
  }

  // The notifications that a step of another client causes.
  function Caused(w: World, step: Step): seq<Update> {
    match step
    case Send(c, u) => if c in w.sessions && !u.BulkUpdate? then [u] else []
    case BulkImport(c, folder, contents) =>
      if c in w.sessions then Import(w.server, Numbered(w.caseid, w.next, contents), folder).1 else []
    case RedirectTopic(c, source, target, known) =>
      if c in w.sessions then Redirect(w.server, source, target, known).1 else []
    case _ => []
  }

  /** Updates that cross each other are independent, and an update is proper when it reaches the server. */
  ghost predicate Fair(w: Writing, move: Move, f: nat) {
    match move
    case Others(step) =>
      && Decent(w.world, step) && Listens(step, f) && forall v :: v in Caused(w.world, step) ==>
                                                                  IndependentAll(v, w.outbox)
    case Write(u) => f in w.world.sessions && IndependentAll(u, ComingTo(w.world, f)) && !u.BulkUpdate?
                     && !u.TopicsUpdate?
    case Arrive => w.outbox != [] ==> Proper(w.world, w.outbox[0])
  }

  /** What the writer will show when everything on its way has arrived is what the server will have when
      everything sent has reached it. */
  ghost predicate Keeps(w: Writing, f: nat) {
    && f in w.world.sessions && w.world.sessions[f].view.Some? && NoSnapshot(w.world.sessions[f].inbox)
    && (forall u :: u in w.outbox ==> !u.BulkUpdate? && !u.TopicsUpdate?)
    && Alike(ApplyAll(w.world.sessions[f].view.value, ComingTo(w.world, f)), ApplyAll(w.world.server, w.outbox))
    && Alike(w.world.server, w.world.server) && Alike(w.world.sessions[f].view.value, w.world.sessions[f].view.value)
  }

  lemma {:induction false} IncomingAppend(inbox: seq<Message>, m: Message)
    ensures Incoming(inbox + [m]) == Incoming(inbox) + (if m.News? then [m.update] else [])
    decreases |inbox|
  {
    if inbox == [] {
      assert inbox + [m] == [m] && [m][1..] == [];
    } else {
      IncomingAppend(inbox[1..], m);
      assert (inbox + [m])[0] == inbox[0] && (inbox + [m])[1..] == inbox[1..] + [m];
      var first, last := if inbox[0].News? then [inbox[0].update] else [], if m.News? then [m.update] else [];
      assert first + (Incoming(inbox[1..]) + last) == first + Incoming(inbox[1..]) + last;
    }
  }

  lemma WriteKeeps(w: Writing, u: Update, f: nat)
    requires Keeps(w, f) && Fair(w, Write(u), f)
    ensures Keeps(Advance(w, Write(u), f), f)
  {
    var view, coming := w.world.sessions[f].view.value, ComingTo(w.world, f);
    var w' := Advance(w, Write(u), f);
    assert Pending(w'.world) == Pending(w.world) && ComingTo(w'.world, f) == coming;
    CommutesAll(view, u, coming);
    ApplyAlike(view, view, u);
    ApplyAlike(ApplyAll(view, coming), ApplyAll(w.world.server, w.outbox), u);
    ApplyAllAppend(w.world.server, w.outbox, [u]);
    assert [u][1..] == [];
    assert ApplyAll(ApplyAll(w.world.server, w.outbox), [u]) == ClientApply(ApplyAll(w.world.server, w.outbox), u);
    AlikeTransitive(ApplyAll(ClientApply(view, u), coming), ClientApply(ApplyAll(view, coming), u),
                    ApplyAll(w.world.server, w.outbox + [u]));
  }

  lemma ArriveKeeps(w: Writing, f: nat)
    requires Sound(w.world) && Keeps(w, f) && Fair(w, Arrive, f) && w.outbox != []
    ensures Keeps(Advance(w, Arrive, f), f)
  {
    var u, w' := w.outbox[0], Advance(w, Arrive, f);
    assert u in w.outbox;
    ServerSound(w.world, f, u);
    HandlersAgree(w.world.server, u);
    ApplyAlike(w.world.server, w.world.server, u);
    var n := [Note(From(f), u)];
    assert Pending(w'.world) == Pending(w.world) + n;
    ForAppend(Pending(w.world), n, f);
    assert n[1..] == [] && For(n, f) == [] + For([], f);
    assert For(Pending(w'.world), f) == For(Pending(w.world), f);
  }

  lemma IndependentBack(us: seq<Update>, vs: seq<Update>)
    requires forall v :: v in vs ==> IndependentAll(v, us)
    ensures forall u :: u in us ==> IndependentAll(u, vs)
  {
    forall u, v | u in us && v in vs
      ensures Independent(u, v)
    {
      assert Independent(v, u);
    }
  }

  lemma QueueAlike(view: Case, server: Case, coming: seq<Update>, outbox: seq<Update>, us: seq<Update>)
    requires Alike(ApplyAll(view, coming), ApplyAll(server, outbox)) && Alike(server, server)
    requires forall v :: v in us ==> IndependentAll(v, outbox)
    ensures Alike(ApplyAll(view, coming + us), ApplyAll(ApplyAll(server, us), outbox))
    ensures Alike(ApplyAll(server, us), ApplyAll(server, us))
  {
    hide Alike;
    ApplyAllAppend(view, coming, us);
    ApplyAllAlike(ApplyAll(view, coming), ApplyAll(server, outbox), us);
    IndependentBack(outbox, us);
    AllCommuteAll(server, outbox, us);
    ApplyAllAlike(server, server, us);
    AlikeTransitive(ApplyAll(view, coming + us), ApplyAll(ApplyAll(server, outbox), us),
                    ApplyAll(ApplyAll(server, us), outbox));
  }

  // The server has moved on by updates that are independent of those still to reach it.
  lemma QueueKeeps(w: Writing, f: nat, notes: seq<Note>, us: seq<Update>)
    requires Keeps(w, f) && For(notes, f) == us && forall v :: v in us ==> IndependentAll(v, w.outbox)
    ensures Keeps(w.(world := w.world.(server := ApplyAll(w.world.server, us), queue := w.world.queue + notes)), f)
  {
    hide Alike, For, ApplyAll, Incoming, IndependentAll;
    var view, coming, server := w.world.sessions[f].view.value, ComingTo(w.world, f), w.world.server;
    var w' := w.(world := w.world.(server := ApplyAll(server, us), queue := w.world.queue + notes));
    assert Pending(w'.world) == Pending(w.world) + notes;
    ForAppend(Pending(w.world), notes, f);
    var inbox := Incoming(w.world.sessions[f].inbox);
    assert inbox + (For(Pending(w.world), f) + us) == inbox + For(Pending(w.world), f) + us;
    assert ComingTo(w'.world, f) == coming + us;
    QueueAlike(view, server, coming, w.outbox, us);
  }

  lemma AnswerKeeps(w: Writing, f: nat, c: nat)
    requires Keeps(w, f) && c in w.world.sessions
    ensures Keeps(w.(world := Answer(w.world, c)), f)
  {
    var w' := w.(world := Answer(w.world, c));
    assert Pending(w'.world) == Pending(w.world);
    if c == f {
      IncomingAppend(w.world.sessions[f].inbox, Reply);
      assert ComingTo(w'.world, f) == ComingTo(w.world, f);
    }
  }

  // Counters and other clients do not matter.
  lemma AsideKeeps(w: Writing, f: nat, world: World)
    requires Keeps(w, f) && f in world.sessions && world.sessions[f] == w.world.sessions[f]
    requires world.server == w.world.server && Pending(world) == Pending(w.world)
    ensures Keeps(w.(world := world), f)
  {
  }

  lemma OthersUpdate(w: Writing, f: nat, step: Step)
    requires Sound(w.world) && Keeps(w, f) && Fair(w, Others(step), f)
    requires step.Send? || step.BulkImport? || step.RedirectTopic?
    ensures Keeps(Advance(w, Others(step), f), f)
  {
    var world, us := w.world, Caused(w.world, step);
    match step
    case Send(c, u) =>
      if c in world.sessions && u.BulkUpdate? {
        AnswerKeeps(w, f, c);
      } else if c in world.sessions {
        ServerSound(world, c, u);
        HandlersAgree(world.server, u);
        var n := [Note(From(c), u)];
        assert n[1..] == [] && [u][1..] == [] && For(n, f) == [u] + For([], f);
        assert ApplyAll(world.server, [u]) == ClientApply(world.server, u);
        QueueKeeps(w, f, n, [u]);
      }
    case BulkImport(c, folder, contents) =>
      if c in world.sessions {
        var items := Numbered(world.caseid, world.next, contents);
        ImportSound(world, folder, contents);
        ImportReplay(world.server, items, folder);
        ForNotes(us, f);
        QueueKeeps(w, f, Notes(Server, us), us);
        var w1 := w.(world := world.(server := ApplyAll(world.server, us), queue := world.queue + Notes(Server, us)));
        var w2 := w1.world.(next := world.next + |contents|, issued := world.issued + Range(world.next, |contents|));
        assert Pending(w2) == Pending(w1.world);
        AsideKeeps(w1, f, w2);
        AnswerKeeps(w1.(world := w2), f, c);
      }
    case RedirectTopic(c, source, target, known) =>
      if c in world.sessions {
        RedirectReplay(world.server, source, target, known);
        ForNotes(us, f);
        QueueKeeps(w, f, Notes(Server, us), us);
      }
  }

  lemma BroadcastKeeps(w: Writing, f: nat)
    requires Keeps(w, f) && w.world.hand.Some?
    ensures Keeps(w.(world := Next(w.world, Broadcast)), f)
  {
    var note, world' := w.world.hand.value, Next(w.world, Broadcast);
    var inbox, rest := w.world.sessions[f].inbox, For(w.world.queue, f);
    assert Pending(w.world)[0] == note && Pending(w.world)[1..] == w.world.queue && Pending(world') == w.world.queue;
    assert For(Pending(w.world), f) == (if note.source == From(f) then [] else [note.update]) + rest;
    if note.source == From(f) {
      assert [] + rest == rest && world'.sessions[f] == w.world.sessions[f];
    } else {
      IncomingAppend(inbox, News(note.update));
      assert Incoming(inbox) + ([note.update] + rest) == Incoming(inbox) + [note.update] + rest;
    }
  }

  lemma ReceiveKeeps(w: Writing, f: nat)
    requires Keeps(w, f) && w.world.sessions[f].inbox != []
    ensures Keeps(w.(world := Next(w.world, Receive(f))), f)
  {
    hide For, Alike;
    var s, world' := w.world.sessions[f], Next(w.world, Receive(f));
    assert Pending(world') == Pending(w.world) && s.inbox[0] in s.inbox;
    assert forall m :: m in s.inbox[1..] ==> m in s.inbox;
    if s.inbox[0].News? {
      var u := s.inbox[0].update;
      assert ComingTo(w.world, f)[0] == u && ComingTo(w.world, f)[1..] == ComingTo(world', f);
      ApplyAlike(s.view.value, s.view.value, u);
    } else {
      assert ComingTo(w.world, f) == ComingTo(world', f);
    }
  }

  lemma SaveKeeps(w: Writing, f: nat, step: Step)
    requires Keeps(w, f) && step.Save?
    ensures Keeps(w.(world := Next(w.world, step)), f)
  {
    var u := Saved(step.time);
    var n := [Note(step.saver, u)];
    assert n[1..] == [] && [u][1..] == [];
    assert For(n, f) == [] || For(n, f) == [u];
    assert ApplyAll(w.world.server, [u]) == ApplyAll(w.world.server, []) == w.world.server;
    QueueKeeps(w, f, n, For(n, f));
  }

  lemma OthersKeep(w: Writing, f: nat, step: Step)
    requires Sound(w.world) && Keeps(w, f) && Fair(w, Others(step), f)
    ensures Keeps(Advance(w, Others(step), f), f)
  {
    var world, world' := w.world, Next(w.world, step);
    if step.Send? || step.BulkImport? || step.RedirectTopic? {
      OthersUpdate(w, f, step);
    } else if step.Save? {
      SaveKeeps(w, f, step);
    } else if step.Broadcast? && world.hand.Some? {
      BroadcastKeeps(w, f);
    } else if step == Receive(f) && world.sessions[f].inbox != [] {
      ReceiveKeeps(w, f);
    } else if step.NewId? && step.client in world.sessions {
      var counted := world.(next := world.next + 1, issued := world.issued + [world.next]);
      assert Pending(counted) == Pending(world);
      AsideKeeps(w, f, counted);
      AnswerKeeps(w.(world := counted), f, step.client);
    } else {
      assert Pending(world') == Pending(world);
      AsideKeeps(w, f, world');
    }
  }

  ghost predicate AllFair(w: Writing, moves: seq<Move>, f: nat)
    decreases |moves|
  {
    moves != [] ==> Fair(w, moves[0], f) && AllFair(Advance(w, moves[0], f), moves[1..], f)
  }

  function RunMoves(w: Writing, moves: seq<Move>, f: nat): Writing
    decreases |moves|
  {
    if moves == [] then w else RunMoves(Advance(w, moves[0], f), moves[1..], f)
  }

  lemma AdvanceSound(w: Writing, move: Move, f: nat)
    requires Sound(w.world) && Fair(w, move, f)
    ensures Sound(Advance(w, move, f).world)
  {
    match move
    case Others(step) => NextSound(w.world, step);
    case Write(_) =>
    case Arrive =>
      if w.outbox != [] {
        NextSound(w.world, Send(f, w.outbox[0]));
      }
  }

  /** Writer convergence: over every run in which crossing updates are independent, what the writer will show
      and what the server will have stay the same case. */
  lemma {:induction false} WriterConverges(w: Writing, moves: seq<Move>, f: nat)
    requires Sound(w.world) && Keeps(w, f) && AllFair(w, moves, f)
    ensures Keeps(RunMoves(w, moves, f), f)
    decreases |moves|
  {
    if moves != [] {
      match moves[0] {
        case Others(step) => OthersKeep(w, f, step);
        case Write(u) => WriteKeeps(w, u, f);
        case Arrive =>
          if w.outbox != [] {
            ArriveKeeps(w, f);
          }
      }
      AdvanceSound(w, moves[0], f);
      WriterConverges(Advance(w, moves[0], f), moves[1..], f);
    }
  }

  /** Once nothing is under way in either direction, the writer shows the server's case. */
  lemma QuietWriter(w: Writing, f: nat)
    requires Keeps(w, f) && w.outbox == [] && w.world.sessions[f].inbox == [] && Pending(w.world) == []
    ensures Alike(w.world.sessions[f].view.value, w.world.server)
  {
  }
}
