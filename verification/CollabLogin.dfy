/**
  Logging in while updates are pending (case/collabd.cc:1560-1594). The snapshot that a new client gets has the
  pending updates already, and their notifications reach it afterwards, so that it replays them a second time. This
  module says in which worlds the client is in step all the same.
 */
module CollabLogin {
  import opened Common
  import opened Collab
  import opened CollabRuns
  import opened CollabWriters
  import opened CollabReplay

  // ----- what is pending in reachable worlds -----

  function Updates(notes: seq<Note>): (r: seq<Update>)
    ensures |r| == |notes|
  {
    seq(|notes|, i requires 0 <= i < |notes| => notes[i].update)
  }

  // The server's case comes from an earlier one by the updates that are still pending.
  ghost predicate Recorded(w: World) {
    exists base :: Since(base, Updates(Pending(w)), w.server)
  }

  // What a step causes is what the server does.
  lemma CausedReplays(w: World, step: Step)
    requires Sound(w) && Decent(w, step) && (step.Send? || step.BulkImport? || step.RedirectTopic?)
    ensures Next(w, step).server == ApplyAll(w.server, Caused(w, step)) && StaysDistinct(w.server, Caused(w, step))
    ensures Updates(Pending(Next(w, step))) == Updates(Pending(w)) + Caused(w, step)
  {
    match step
    case Send(c, u) =>
      if c in w.sessions && !u.BulkUpdate? {
        ServerSound(w, c, u);
        HandlersAgree(w.server, u);
        assert [u][1..] == [];
      }
    case BulkImport(c, folder, contents) =>
      if c in w.sessions {
        ImportCaused(w, folder, contents);
      }
    case RedirectTopic(c, source, target, known) =>
      if c in w.sessions {
        RedirectReplay(w.server, source, target, known);
        var us := Redirect(w.server, source, target, known).1;
        if us != [] {
          assert us[1..] == [];
          PutAllTopics(w.server, us[0].items);
        }
      }
  }

  lemma ImportCaused(w: World, folder: string, contents: seq<Content>)
    requires Sound(w)
    ensures var r := Import(w.server, Numbered(w.caseid, w.next, contents), folder);
            ApplyAll(w.server, r.1) == r.0 && StaysDistinct(w.server, r.1)
  {
    var items := Numbered(w.caseid, w.next, contents);
    var us := Import(w.server, items, folder).1;
    ImportSound(w, folder, contents);
    ImportReplay(w.server, items, folder);
    PutAllTopics(w.server, items);
    if |us| == 2 {
      assert us[1..] == [us[1]] && us[1..][1..] == [];
    } else {
      assert us[1..] == [];
    }
  }

  lemma SavedNext(w: World, step: Step, base: Case)
    requires step.Save? && Since(base, Updates(Pending(w)), w.server)
    ensures Since(base, Updates(Pending(Next(w, step))), Next(w, step).server)
  {
    hide Since;
    assert Updates(Pending(Next(w, step))) == Updates(Pending(w)) + [Saved(step.time)];
    SinceReplays(base, Updates(Pending(w)), w.server);
    SinceMore(base, Updates(Pending(w)), w.server, Saved(step.time));
  }

  lemma RecordedNext(w: World, step: Step)
    requires Sound(w) && Recorded(w) && Decent(w, step)
    ensures Recorded(Next(w, step))
  {
    var w' := Next(w, step);
    var base :| Since(base, Updates(Pending(w)), w.server);
    if step.Send? || step.BulkImport? || step.RedirectTopic? {
      CausedReplays(w, step);
      SinceAll(base, Updates(Pending(w)), w.server, Caused(w, step));
    } else if step.Save? {
      SavedNext(w, step, base);
    } else if step.Broadcast? && w.hand.Some? {
      assert Updates(Pending(w))[0] == w.hand.value.update && Updates(Pending(w))[1..] == Updates(Pending(w'));
      assert Since(ClientApply(base, w.hand.value.update), Updates(Pending(w')), w'.server);
    } else {
      assert Pending(w') == Pending(w);
      assert Since(base, Updates(Pending(w')), w'.server);
    }
  }

  ghost predicate AllDecent(w: World, steps: seq<Step>)
    decreases |steps|
  {
    steps != [] ==> Decent(w, steps[0]) && AllDecent(Next(w, steps[0]), steps[1..])
  }

  /** Over every run of clients that respect the rules: what is pending leads from an earlier case to the server's. */
  lemma {:induction false} RunRecorded(w: World, steps: seq<Step>)
    requires Sound(w) && Recorded(w) && AllDecent(w, steps)
    ensures Sound(Run(w, steps)) && Recorded(Run(w, steps))
    decreases |steps|
  {
    if steps != [] {
      NextSound(w, steps[0]);
      RecordedNext(w, steps[0]);
      RunRecorded(Next(w, steps[0]), steps[1..]);
    }
  }

  lemma QuietRecorded(w: World)
    requires Sound(w) && Pending(w) == [] && NoDuplicates(w.server.topics) && Complete(w.server)
    ensures Recorded(w)
  {
    assert Since(w.server, Updates(Pending(w)), w.server);
  }

  // ----- logging in -----

  // No pending update is from the client itself, as none is on a new connection.
  predicate FromOthers(w: World, f: nat) {
    forall n :: n in Pending(w) ==> n.source != From(f)
  }

  lemma {:induction false} ForOthers(notes: seq<Note>, f: nat)
    requires forall n :: n in notes ==> n.source != From(f)
    ensures For(notes, f) == Updates(notes)
    decreases |notes|
  {
    if notes != [] {
      ForOthers(notes[1..], f);
      assert Updates(notes) == [notes[0].update] + Updates(notes[1..]);
    }
  }

  /** The exact condition for logging in: the new client follows if and only if the topics and the folders that the
      server has now are settled under the pending updates. */
  lemma LoginExact(w: World, f: nat)
    requires f !in w.sessions && FromOthers(w, f) && Recorded(w)
    ensures var us := Updates(Pending(w));
            Follows(Next(w, Login(f)), f) <==> TopicsSettled(w.server.topics, us)
                                               && FoldersSettled(w.server.folders, us)
  {
    hide TopicsSettled, FoldersSettled, Since;
    var base :| Since(base, Updates(Pending(w)), w.server);
    ReplayExact(base, Updates(Pending(w)), w.server);
    SinceReplays(base, Updates(Pending(w)), w.server);
    ForOthers(Pending(w), f);
    LoginReplays(w, f);
  }

  // No deletions, no renames, and no update of a folder before a list of folders.
  predicate Mild(us: seq<Update>) {
    forall i :: 0 <= i < |us| ==> !us[i].DeleteUpdate? && !us[i].RenameUpdate?
                                  && (us[i].FolderUpdate? ==> i < FirstList(us) == |us| || i > FirstList(us))
  }

  /** A client that logs in follows when no deletion and no rename is pending, and no update of a folder before a list
      of folders; topics, imports, redirects, saves, updates of folders and lists of folders do no harm. */
  lemma LoginSafe(w: World, f: nat)
    requires f !in w.sessions && FromOthers(w, f) && Recorded(w) && Mild(Updates(Pending(w)))
    ensures Follows(Next(w, Login(f)), f)
  {
    var us := Updates(Pending(w));
    LoginExact(w, f);
    assert Deleted(us) == {};
    var base :| Since(base, us, w.server);
    var k := FirstList(us);
    if k == |us| {
      forall i | 0 <= i < |w.server.folders| ensures Traced(w.server.folders[i], us) == w.server.folders[i] {
        FolderBack(base, us, w.server, i);
        OwnName(base, us, w.server, i);
      }
    } else {
      forall name | name in us[k].names && Kept(name, us[k + 1..]).Some?
        ensures Found(TracedAll(w.server.folders, us[..k]), name) ==
                Found(w.server.folders, Kept(name, us[k + 1..]).value)
      {
        KeptName(name, us[k + 1..]);
        forall i | 0 <= i < |w.server.folders| ensures Traced(w.server.folders[i], us[..k]) == w.server.folders[i] {
          NamesKept(w.server.folders[i], us[..k]);
        }
        assert TracedAll(w.server.folders, us[..k]) == w.server.folders;
      }
    }
  }

  /** With no list of folders pending and no folder under a new name: the client follows if and only if every folder
      has the name that it had before the pending updates, and topics are settled. */
  lemma LoginWithoutLists(w: World, f: nat, base: Case)
    requires f !in w.sessions && FromOthers(w, f) && Since(base, Updates(Pending(w)), w.server)
    requires FirstList(Updates(Pending(w))) == |Pending(w)|
    requires forall i :: 0 <= i < |w.server.folders| ==>
               exists k :: 0 <= k < |base.folders| && base.folders[k].name == w.server.folders[i].name
    ensures Follows(Next(w, Login(f)), f) <==>
            && TopicsSettled(w.server.topics, Updates(Pending(w)))
            && SameNames(base.folders, w.server.folders)
  {
    hide Follows, Next, TopicsSettled, Since, Traced;
    var us, folders := Updates(Pending(w)), w.server.folders;
    LoginExact(w, f);
    forall i | 0 <= i < |folders|
      ensures |base.folders| == |folders|
      ensures Traced(folders[i], us) == folders[i] <==> base.folders[i].name == folders[i].name
    {
      FolderBack(base, us, w.server, i);
      var k :| 0 <= k < |base.folders| && base.folders[k].name == folders[i].name;
    }
    FoldersNumber(base, us, w.server);
  }

  // ----- a login that loses step -----

  // A collaboration with one folder, and what its only participant does before leaving.
  function EarlyWorld(): World {
    World(Case([], map[], [Folder("A", ["t"])]), 1, 1, [], None, map[], [])
  }

  function LateSteps(): seq<Step> {
    [Login(7), Send(7, RenameUpdate("A", "B")), Send(7, FoldersUpdate(["B", "A"])), Logout(7)]
  }

  // Folder B has been renamed from A, and an empty folder A has been added; neither is broadcast yet.
  function LateWorld(): World {
    World(Case([], map[], [Folder("B", ["t"]), Folder("A", [])]), 1, 1,
          [Note(From(7), RenameUpdate("A", "B")), Note(From(7), FoldersUpdate(["B", "A"]))], None, map[], [])
  }

  /** The world in which a rename and a new folder of the old name are pending is the result of a run, and a client
      that logs in then does not follow: the snapshot has the rename, and replaying it spoils a folder. */
  lemma LoginDuringRename()
    ensures Sound(EarlyWorld()) && Recorded(EarlyWorld()) && AllDecent(EarlyWorld(), LateSteps())
    ensures var w := Run(EarlyWorld(), LateSteps());
            w == LateWorld() && Recorded(w) && !Follows(Next(w, Login(1)), 1)
  {
    hide FoldersSettled, Recorded, TopicsSettled, Run, AllDecent, Next;
    var w0 := EarlyWorld();
    assert Pending(w0) == [];
    QuietRecorded(w0);
    LateRun();
    RunRecorded(w0, LateSteps());
    var w, us := LateWorld(), [RenameUpdate("A", "B"), FoldersUpdate(["B", "A"])];
    assert Updates(Pending(w)) == us;
    LoginExact(w, 1);
    LateSpoiled(w.server.folders, us[0], us[1]);
    assert us == [us[0], us[1]];
  }

  lemma LateSpoiled(folders: seq<Folder>, u: Update, v: Update)
    requires folders == [Folder("B", ["t"]), Folder("A", [])] && u == RenameUpdate("A", "B")
    requires v == FoldersUpdate(["B", "A"])
    ensures !FoldersSettled(folders, [u, v])
  {
    var us := [u, v];
    assert us[1..] == [v] && FirstList(us) == 1 && us[2..] == [] && us[..1] == [u] && [u][1..] == [];
    var a, b, c := Folder("B", ["t"]), Folder("A", []), Folder("B", []);
    assert Traced(a, [u]) == Traced(a, []) && Traced(b, [u]) == Traced(c, []);
    assert TracedAll(folders, [u]) == [a, c];
    assert [a, c][1..] == [c] && [c][1..] == [] && [a, b][1..] == [b] && [b][1..] == [];
    assert LastTopics([c], "B") == Some([]) && LastTopics([b], "B") == LastTopics([], "B") == None;
    assert Found([a, c], "B") == [] && Found([a, b], "B") == ["t"];
    assert "B" in us[1].names && Kept("B", us[2..]) == Some("B");
  }

  lemma LateRun()
    ensures Run(EarlyWorld(), LateSteps()) == LateWorld() && AllDecent(EarlyWorld(), LateSteps())
  {
    var w0, steps := EarlyWorld(), LateSteps();
    var u, v := RenameUpdate("A", "B"), FoldersUpdate(["B", "A"]);
    var w1 := Next(w0, steps[0]);
    var w2 := Next(w1, steps[1]);
    var w3 := Next(w2, steps[2]);
    var w4 := Next(w3, steps[3]);
    assert steps[1..] == [steps[1], steps[2], steps[3]] && steps[2..] == [steps[2], steps[3]]
           && steps[3..] == [steps[3]] && steps[4..] == [];
    assert steps[1..][1..] == steps[2..] && steps[2..][1..] == steps[3..] && steps[3..][1..] == steps[4..];
    assert w2.server.folders == [Folder("B", ["t"])] && w2.queue == [Note(From(7), u)];
    LateLists(w2.server.folders);
    assert w3.queue == [Note(From(7), u), Note(From(7), v)];
    assert w4.sessions == map[];
    assert w4 == LateWorld();
    assert Run(w3, steps[3..]) == Run(w4, steps[4..]) == w4;
    assert Run(w2, steps[2..]) == Run(w3, steps[3..]);
    assert Run(w1, steps[1..]) == Run(w2, steps[2..]);
    assert AllDecent(w3, steps[3..]) && AllDecent(w2, steps[2..]) && AllDecent(w1, steps[1..]);
  }

  lemma LateLists(folders: seq<Folder>)
    requires folders == [Folder("B", ["t"])]
    ensures Rearranged(folders, ["B", "A"]) == [Folder("B", ["t"]), Folder("A", [])]
  {
    assert folders[1..] == [];
    assert LastTopics(folders, "B") == Some(["t"]) && LastTopics(folders, "A") == None;
  }
}
