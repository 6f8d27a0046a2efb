/**
  Runs of a collaboration: clients send updates, the server applies them one at a time and queues
  notifications, the monitor thread takes them from the queue and broadcasts them, and clients replay what
  their sockets bring (case/collabd.cc:1560-1626, 1655-1673, 1821-1884). Every run keeps a client that sends no
  updates in step with the server, and never gives out a topic id twice.
 */
module CollabRuns {
  import opened Common
  import opened Collab

  datatype Source = Server | From(client: nat)
  datatype Note = Note(source: Source, update: Update)

  // What the server sends to a client. Replies do not change the client's case.
  datatype Message = Snapshot(view: Case) | News(update: Update) | Reply

  // A logged-in client: its case, once the first snapshot has arrived, and its socket.
  datatype Session = Session(view: Option<Case>, inbox: seq<Message>)

  /** The server's case and id counter, the notification queue, the notification in the monitor's hand, the
      clients, and all ids given out so far. */
  datatype World = World(server: Case, caseid: nat, next: nat, queue: seq<Note>, hand: Option<Note>,
                         sessions: map<nat, Session>, issued: seq<nat>)

  datatype Step =
    | Login(client: nat)
    | Logout(client: nat)
    | Send(client: nat, update: Update)
    | BulkImport(client: nat, folder: string, contents: seq<Content>)
    | RedirectTopic(client: nat, source: Id, target: Id, known: bool)
    | NewId(client: nat)
    | Save(saver: Source, time: string)
    | Take
    | Broadcast
    | Receive(client: nat)

  // ----- one step -----

  // A new client gets the case with the contents of its topics.
  function Visible(c: Case): Case {
    c.(contents := map id | id in c.contents && id in c.topics :: c.contents[id])
  }

  function Deliver(sessions: map<nat, Session>, note: Note): map<nat, Session> {
    map c | c in sessions :: if note.source == From(c) then sessions[c]
                             else sessions[c].(inbox := sessions[c].inbox + [News(note.update)])
  }

  function Answer(w: World, c: nat): World
    requires c in w.sessions
  {
    w.(sessions := w.sessions[c := w.sessions[c].(inbox := w.sessions[c].inbox + [Reply])])
  }

  function Consume(s: Session): Session
    requires s.inbox != []
  {
    Session(Shown(s.view, s.inbox[0]), s.inbox[1..])
  }

  function Shown(view: Option<Case>, m: Message): Option<Case> {
    match m
    case Snapshot(v) => Some(v)
    case News(u) => if view.Some? then Some(ClientApply(view.value, u)) else None
    case Reply => view
  }

  function Notes(source: Source, us: seq<Update>): (r: seq<Note>)
    ensures |r| == |us|
  {
    seq(|us|, i requires 0 <= i < |us| => Note(source, us[i]))
  }

  function Range(from: nat, count: nat): (r: seq<nat>)
    ensures |r| == count
  {
    seq(count, i requires 0 <= i < count => from + i)
  }

  // A step that is not possible changes nothing.
  function Next(w: World, step: Step): World {
    match step
    case Login(c) =>
      if c in w.sessions then w else w.(sessions := w.sessions[c := Session(None, [Snapshot(Visible(w.server))])])
    case Logout(c) => w.(sessions := w.sessions - {c})
    case Send(c, u) =>
      if c !in w.sessions then w
      else if u.BulkUpdate? then Answer(w, c)
      else w.(server := ServerApply(w.server, u), queue := w.queue + [Note(From(c), u)])
    case BulkImport(c, folder, contents) =>
      if c !in w.sessions then w
      else
        var r := Import(w.server, Numbered(w.caseid, w.next, contents), folder);
        Answer(w.(server := r.0, queue := w.queue + Notes(Server, r.1), next := w.next + |contents|,
                  issued := w.issued + Range(w.next, |contents|)), c)
    case RedirectTopic(c, source, target, known) =>
      if c !in w.sessions then w
      else
        var r := Redirect(w.server, source, target, known);
        w.(server := r.0, queue := w.queue + Notes(Server, r.1))
    case NewId(c) =>
      if c !in w.sessions then w else Answer(w.(next := w.next + 1, issued := w.issued + [w.next]), c)
    case Save(source, time) => w.(queue := w.queue + [Note(source, Saved(time))])
    case Take => if w.hand.None? && w.queue != [] then w.(hand := Some(w.queue[0]), queue := w.queue[1..]) else w
    case Broadcast => if w.hand.Some? then w.(sessions := Deliver(w.sessions, w.hand.value), hand := None) else w
    case Receive(c) =>
      if c in w.sessions && w.sessions[c].inbox != [] then w.(sessions := w.sessions[c := Consume(w.sessions[c])])
      else w
  }

  function Run(w: World, steps: seq<Step>): World
    decreases |steps|
  {
    if steps == [] then w else Run(Next(w, steps[0]), steps[1..])
  }

  // ----- what clients must respect -----

  predicate DistinctFolders(folders: seq<Folder>) {
    forall i, j :: 0 <= i < j < |folders| ==> folders[i].name != folders[j].name
  }

  // An id of the server's own form has been given out.
  ghost predicate Granted(w: World, id: Id) {
    forall n: nat :: id == TopicId(w.caseid, n) ==> n < w.next
  }

  ghost predicate Sound(w: World) {
    DistinctFolders(w.server.folders) && forall id :: id in w.server.topics ==> Granted(w, id)
  }

  /** Clients keep folder names distinct and use no topic id of the server's form that they were not given.
      A list of topics must say nothing new, because no client handles it. */
  ghost predicate Proper(w: World, u: Update) {
    match u
    case TopicUpdate(id, _) => Granted(w, id)
    case TopicsUpdate(items) => Known(w.server, items)
    case FoldersUpdate(names) => forall i, j :: 0 <= i < j < |names| ==> names[i] != names[j]
    case RenameUpdate(oldname, newname) =>
      oldname == newname || forall i :: 0 <= i < |w.server.folders| ==> w.server.folders[i].name != newname
    case _ => true
  }

  ghost predicate Decent(w: World, step: Step) {
    step.Send? ==> Proper(w, step.update)
  }

  // Client f neither leaves nor sends updates of its own; imports and redirects are allowed.
  predicate Listens(step: Step, f: nat) {
    step != Logout(f) && !(step.Send? && step.client == f)
  }

  ghost predicate Allowed(w: World, steps: seq<Step>, f: nat)
    decreases |steps|
  {
    steps != [] ==> Decent(w, steps[0]) && Listens(steps[0], f) && Allowed(Next(w, steps[0]), steps[1..], f)
  }

  // ----- soundness is kept -----

  lemma {:induction false} SetFirstNames(folders: seq<Folder>, name: string, topics: seq<Id>)
    ensures forall i :: 0 <= i < |folders| ==> SetFirst(folders, name, topics)[i].name == folders[i].name
  {
    if folders != [] && folders[0].name != name {
      SetFirstNames(folders[1..], name, topics);
    }
  }

  lemma {:induction false} RenameFirstNames(folders: seq<Folder>, oldname: string, newname: string)
    requires DistinctFolders(folders)
    requires oldname == newname || forall i :: 0 <= i < |folders| ==> folders[i].name != newname
    ensures DistinctFolders(RenameFirst(folders, oldname, newname))
  {
    RenameAgrees(folders, oldname, newname);
  }

  lemma ServerSound(w: World, c: nat, u: Update)
    requires Sound(w) && Proper(w, u)
    ensures var s := ServerApply(w.server, u);
            DistinctFolders(s.folders) && forall id :: id in s.topics ==> Granted(w, id)
    ensures Agreeable(w.server, u) || u.BulkUpdate?
  {
    match u
    case FolderUpdate(name, topics) => SetFirstNames(w.server.folders, name, topics);
    case RenameUpdate(oldname, newname) => RenameFirstNames(w.server.folders, oldname, newname);
    case TopicsUpdate(items) => PutAllKnown(w.server, items);
    case DeleteUpdate(id) => WithoutSubset(w.server.topics, id);
    case _ =>
  }

  lemma ImportSound(w: World, folder: string, contents: seq<Content>)
    requires Sound(w)
    ensures var items := Numbered(w.caseid, w.next, contents);
            var r := Import(w.server, items, folder);
            && AllNew(w.server, items) && ImportClear(w.server, items, folder) && DistinctFolders(r.0.folders)
            && forall id, n: nat :: id in r.0.topics && id == TopicId(w.caseid, n) ==> n < w.next + |contents|
  {
    var items := Numbered(w.caseid, w.next, contents);
    forall i, j | 0 <= i < j < |items|
      ensures items[i].id != items[j].id
    {
      if items[i].id == items[j].id {
        TopicIdInjective(w.caseid, w.next + i, w.next + j);
      }
    }
    forall i | 0 <= i < |items|
      ensures items[i].id !in w.server.topics
    {
      assert items[i].id == TopicId(w.caseid, w.next + i);
    }
    if folder != "" && FirstTopics(w.server.folders, folder).Some? {
      SetFirstNames(w.server.folders, folder, FirstTopics(w.server.folders, folder).value + Ids(items));
    }
    forall id, n: nat | id in w.server.topics + Ids(items) && id == TopicId(w.caseid, n)
      ensures n < w.next + |contents|
    {
      if id in Ids(items) {
        var i :| 0 <= i < |items| && items[i].id == id;
        TopicIdInjective(w.caseid, n, w.next + i);
      }
    }
  }

  lemma NextSound(w: World, step: Step)
    requires Sound(w) && Decent(w, step)
    ensures Sound(Next(w, step))
  {
    match step
    case Send(c, u) =>
      if c in w.sessions {
        ServerSound(w, c, u);
      }
    case BulkImport(c, folder, contents) => ImportSound(w, folder, contents);
    case _ =>
  }

  // ----- followers -----

  function Pending(w: World): seq<Note> {
    (if w.hand.Some? then [w.hand.value] else []) + w.queue
  }

  // The updates of the notes that are not from client f.
  function For(notes: seq<Note>, f: nat): seq<Update>
    decreases |notes|
  {
    if notes == [] then []
    else (if notes[0].source == From(f) then [] else [notes[0].update]) + For(notes[1..], f)
  }

  // What a client shows once its socket is empty.
  function CaughtUp(view: Option<Case>, inbox: seq<Message>): Option<Case>
    decreases |inbox|
  {
    if inbox == [] then view else CaughtUp(Shown(view, inbox[0]), inbox[1..])
  }

  // What client f will show when everything under way has reached it.
  function Expected(w: World, f: nat): Option<Case>
    requires f in w.sessions
  {
    var v := CaughtUp(w.sessions[f].view, w.sessions[f].inbox);
    if v.Some? then Some(ApplyAll(v.value, For(Pending(w), f))) else None
  }

  /** Replaying the socket and the pending notifications brings client f to the server's case. */
  ghost predicate Follows(w: World, f: nat) {
    f in w.sessions && Expected(w, f).Some? && Same(Expected(w, f).value, w.server)
  }

  lemma {:induction false} CaughtUpAppend(view: Option<Case>, inbox: seq<Message>, m: Message)
    ensures CaughtUp(view, inbox + [m]) == Shown(CaughtUp(view, inbox), m)
    decreases |inbox|
  {
    if inbox == [] {
      assert [m][1..] == [];
      assert inbox + [m] == [m];
    } else {
      CaughtUpAppend(Shown(view, inbox[0]), inbox[1..], m);
      assert (inbox + [m])[1..] == inbox[1..] + [m];
    }
  }

  lemma {:induction false} ApplyAllAppend(c: Case, us: seq<Update>, vs: seq<Update>)
    ensures ApplyAll(c, us + vs) == ApplyAll(ApplyAll(c, us), vs)
    decreases |us|
  {
    if us == [] {
      assert us + vs == vs;
    } else {
      ApplyAllAppend(ClientApply(c, us[0]), us[1..], vs);
      assert (us + vs)[1..] == us[1..] + vs;
    }
  }

  lemma {:induction false} ForAppend(a: seq<Note>, b: seq<Note>, f: nat)
    ensures For(a + b, f) == For(a, f) + For(b, f)
    decreases |a|
  {
    if a == [] {
      assert a + b == b;
    } else {
      ForAppend(a[1..], b, f);
      assert (a + b)[0] == a[0] && (a + b)[1..] == a[1..] + b;
      var first := if a[0].source == From(f) then [] else [a[0].update];
      assert first + (For(a[1..], f) + For(b, f)) == first + For(a[1..], f) + For(b, f);
    }
  }

  lemma {:induction false} ForNotes(us: seq<Update>, f: nat)
    ensures For(Notes(Server, us), f) == us
    decreases |us|
  {
    if us != [] {
      ForNotes(us[1..], f);
      assert Notes(Server, us)[1..] == Notes(Server, us[1..]);
      assert us == [us[0]] + us[1..];
    }
  }

  lemma {:induction false} ApplyAllSame(a: Case, b: Case, us: seq<Update>)
    requires Same(a, b)
    ensures Same(ApplyAll(a, us), ApplyAll(b, us))
    decreases |us|
  {
    if us != [] {
      ApplySame(a, b, us[0]);
      ApplyAllSame(ClientApply(a, us[0]), ClientApply(b, us[0]), us[1..]);
    }
  }

  // The server has moved on and queued what it did.
  lemma QueueStep(w: World, f: nat, notes: seq<Note>, server: Case)
    requires Follows(w, f) && ApplyAll(w.server, For(notes, f)) == server
    ensures Follows(w.(server := server, queue := w.queue + notes), f)
  {
    hide ApplyAll, For, CaughtUp, Same;
    var w' := w.(server := server, queue := w.queue + notes);
    assert Pending(w') == Pending(w) + notes;
    ForAppend(Pending(w), notes, f);
    var v := CaughtUp(w.sessions[f].view, w.sessions[f].inbox).value;
    ApplyAllAppend(v, For(Pending(w), f), For(notes, f));
    ApplyAllSame(Expected(w, f).value, w.server, For(notes, f));
  }

  lemma AnswerFollows(w: World, c: nat, f: nat)
    requires Follows(w, f) && c in w.sessions
    ensures Follows(Answer(w, c), f)
  {
    if c == f {
      CaughtUpAppend(w.sessions[f].view, w.sessions[f].inbox, Reply);
    }
    assert Pending(Answer(w, c)) == Pending(w);
  }

  lemma SendFollows(w: World, f: nat, c: nat, u: Update)
    requires Sound(w) && Follows(w, f) && c in w.sessions && c != f && Proper(w, u)
    ensures Follows(Next(w, Send(c, u)), f)
  {
    if u.BulkUpdate? {
      AnswerFollows(w, c, f);
    } else {
      ServerSound(w, c, u);
      HandlersAgree(w.server, u);
      assert [Note(From(c), u)][1..] == [] && For([Note(From(c), u)], f) == [u] && [u][1..] == [];
      assert ApplyAll(w.server, [u]) == ClientApply(w.server, u);
      QueueStep(w, f, [Note(From(c), u)], ServerApply(w.server, u));
    }
  }

  lemma ImportFollows(w: World, f: nat, c: nat, folder: string, contents: seq<Content>)
    requires Sound(w) && Follows(w, f) && c in w.sessions
    ensures Follows(Next(w, BulkImport(c, folder, contents)), f)
  {
    var items := Numbered(w.caseid, w.next, contents);
    var r := Import(w.server, items, folder);
    ImportSound(w, folder, contents);
    ImportReplay(w.server, items, folder);
    ForNotes(r.1, f);
    QueueStep(w, f, Notes(Server, r.1), r.0);
    var w1 := w.(server := r.0, queue := w.queue + Notes(Server, r.1));
    var w2 := w1.(next := w.next + |contents|, issued := w.issued + Range(w.next, |contents|));
    assert Pending(w2) == Pending(w1);
    AnswerFollows(w2, c, f);
  }

  lemma RedirectFollows(w: World, f: nat, c: nat, source: Id, target: Id, known: bool)
    requires Follows(w, f) && c in w.sessions
    ensures Follows(Next(w, RedirectTopic(c, source, target, known)), f)
  {
    var r := Redirect(w.server, source, target, known);
    RedirectReplay(w.server, source, target, known);
    ForNotes(r.1, f);
    QueueStep(w, f, Notes(Server, r.1), r.0);
  }

  lemma SaveFollows(w: World, f: nat, source: Source, time: string)
    requires Follows(w, f)
    ensures Follows(Next(w, Save(source, time)), f)
  {
    var n := [Note(source, Saved(time))];
    assert n[1..] == [] && [Saved(time)][1..] == [];
    assert For(n, f) == [] || For(n, f) == [Saved(time)];
    assert ApplyAll(w.server, [Saved(time)]) == ApplyAll(w.server, []);
    QueueStep(w, f, n, w.server);
  }

  // The monitor's steps only move notifications on.
  lemma BroadcastFollows(w: World, f: nat)
    requires Follows(w, f) && w.hand.Some?
    ensures Follows(Next(w, Broadcast), f)
  {
    var note, rest := w.hand.value, For(w.queue, f);
    var w' := Next(w, Broadcast);
    assert Pending(w)[0] == note && Pending(w)[1..] == w.queue;
    assert Pending(w') == w.queue;
    assert For(Pending(w), f) == (if note.source == From(f) then [] else [note.update]) + rest;
    if note.source != From(f) {
      CaughtUpAppend(w.sessions[f].view, w.sessions[f].inbox, News(note.update));
      var us := [note.update] + rest;
      assert us[0] == note.update && us[1..] == rest;
    } else {
      assert [] + rest == rest && w'.sessions[f] == w.sessions[f];
    }
  }

  lemma TakeFollows(w: World, f: nat)
    requires Follows(w, f) && w.hand.None? && w.queue != []
    ensures Follows(Next(w, Take), f)
  {
    assert Pending(Next(w, Take)) == Pending(w);
  }

  lemma ReceiveFollows(w: World, f: nat, c: nat)
    requires Follows(w, f) && c in w.sessions && w.sessions[c].inbox != []
    ensures Follows(Next(w, Receive(c)), f)
  {
    assert Pending(Next(w, Receive(c))) == Pending(w);
  }

  lemma NewIdFollows(w: World, f: nat, c: nat)
    requires Follows(w, f) && c in w.sessions
    ensures Follows(Next(w, NewId(c)), f)
  {
    var w1 := w.(next := w.next + 1, issued := w.issued + [w.next]);
    assert Pending(w1) == Pending(w);
    AnswerFollows(w1, c, f);
  }

  lemma SessionsFollow(w: World, f: nat, step: Step)
    requires Follows(w, f) && (step.Login? || step.Logout?) && Listens(step, f)
    ensures Follows(Next(w, step), f)
  {
    assert Pending(Next(w, step)) == Pending(w);
  }

  lemma NextFollows(w: World, step: Step, f: nat)
    requires Sound(w) && Follows(w, f) && Decent(w, step) && Listens(step, f)
    ensures Follows(Next(w, step), f)
  {
    match step
    case Login(_) => SessionsFollow(w, f, step);
    case Logout(_) => SessionsFollow(w, f, step);
    case Send(c, u) =>
      if c in w.sessions {
        SendFollows(w, f, c, u);
      }
    case BulkImport(c, folder, contents) =>
      if c in w.sessions {
        ImportFollows(w, f, c, folder, contents);
      }
    case RedirectTopic(c, source, target, known) =>
      if c in w.sessions {
        RedirectFollows(w, f, c, source, target, known);
      }
    case NewId(c) =>
      if c in w.sessions {
        NewIdFollows(w, f, c);
      }
    case Save(source, time) => SaveFollows(w, f, source, time);
    case Take =>
      if w.hand.None? && w.queue != [] {
        TakeFollows(w, f);
      }
    case Broadcast =>
      if w.hand.Some? {
        BroadcastFollows(w, f);
      }
    case Receive(c) =>
      if c in w.sessions && w.sessions[c].inbox != [] {
        ReceiveFollows(w, f, c);
      }
  }

  /** Follower convergence: over every run, replaying its socket and the pending notifications gives a client
      that sends no updates the server's topics, contents and folders. */
  lemma {:induction false} FollowerConverges(w: World, steps: seq<Step>, f: nat)
    requires Sound(w) && Follows(w, f) && Allowed(w, steps, f)
    ensures Sound(Run(w, steps)) && Follows(Run(w, steps), f)
    decreases |steps|
  {
    if steps != [] {
      NextSound(w, steps[0]);
      NextFollows(w, steps[0], f);
      FollowerConverges(Next(w, steps[0]), steps[1..], f);
    }
  }

  /** Once nothing is under way any more, the client shows what the server has. */
  lemma QuietFollower(w: World, f: nat)
    requires Follows(w, f) && w.sessions[f].inbox == [] && Pending(w) == []
    ensures w.sessions[f].view.Some? && Same(w.sessions[f].view.value, w.server)
  {
  }

  // ----- logging in -----

  predicate Complete(c: Case) {
    forall id :: id in c.topics ==> id in c.contents
  }

  // A client that logs in follows exactly when replaying what is pending changes nothing for the server's case.
  lemma LoginReplays(w: World, f: nat)
    requires f !in w.sessions && Complete(w.server)
    ensures Follows(Next(w, Login(f)), f) <==> Same(ApplyAll(Visible(w.server), For(Pending(w), f)), w.server)
  {
    var w' := Next(w, Login(f));
    var snapshot := [Snapshot(Visible(w.server))];
    assert snapshot[1..] == [];
    assert CaughtUp(None, snapshot) == CaughtUp(Some(Visible(w.server)), []);
    assert Pending(w') == Pending(w);
  }

  /** Without a handler for lists of topics, one such update that says something new is enough to lose step. */
  lemma TopicsNotFollowed(w: World, f: nat, c: nat, items: seq<Item>)
    requires Follows(w, f) && c in w.sessions && c != f && items != [] && items[0].id !in w.server.topics
    ensures !Follows(Next(w, Send(c, TopicsUpdate(items))), f)
  {
    var w' := Next(w, Send(c, TopicsUpdate(items)));
    var n := [Note(From(c), TopicsUpdate(items))];
    assert Pending(w') == Pending(w) + n;
    ForAppend(Pending(w), n, f);
    assert n[1..] == [] && For(n, f) == [TopicsUpdate(items)] && [TopicsUpdate(items)][1..] == [];
    var v := CaughtUp(w.sessions[f].view, w.sessions[f].inbox).value;
    ApplyAllAppend(v, For(Pending(w), f), [TopicsUpdate(items)]);
    var e := Expected(w, f).value;
    assert ApplyAll(e, [TopicsUpdate(items)]) == ApplyAll(e, []);
    PutAllTopics(w.server, items);
    assert items[0].id in w'.server.topics;
  }

  // ----- topic ids -----

  ghost predicate Increasing(w: World) {
    && (forall i, j :: 0 <= i < j < |w.issued| ==> w.issued[i] < w.issued[j])
    && forall i :: 0 <= i < |w.issued| ==> w.issued[i] < w.next
  }

  lemma IssuedGrows(w: World, step: Step)
    requires Increasing(w)
    ensures Increasing(Next(w, step)) && w.issued <= Next(w, step).issued && Next(w, step).caseid == w.caseid
  {
    hide TopicId, Import, Redirect, ServerApply, Numbered, Visible, Notes, Deliver, Consume;
  }

  /** Over every run the ids given out, one by one or in bulk, are pairwise distinct and below the counter. */
  lemma {:induction false} IdsUnique(w: World, steps: seq<Step>)
    requires Increasing(w)
    ensures Increasing(Run(w, steps)) && w.issued <= Run(w, steps).issued
    ensures Run(w, steps).caseid == w.caseid
    ensures var ids := Run(w, steps).issued;
            forall i, j :: 0 <= i < j < |ids| ==> TopicId(w.caseid, ids[i]) != TopicId(w.caseid, ids[j])
    decreases |steps|
  {
    hide TopicId, Next;
    if steps != [] {
      IssuedGrows(w, steps[0]);
      IdsUnique(Next(w, steps[0]), steps[1..]);
    }
    var ids := Run(w, steps).issued;
    forall i, j | 0 <= i < j < |ids|
      ensures TopicId(w.caseid, ids[i]) != TopicId(w.caseid, ids[j])
    {
      if TopicId(w.caseid, ids[i]) == TopicId(w.caseid, ids[j]) {
        TopicIdInjective(w.caseid, ids[i], ids[j]);
      }
    }
  }
}
