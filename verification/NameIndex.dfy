/**
  The index of topic names: a sorted list that is thrown away by every change and rebuilt by the next search
  (case/collabd.cc:646-808), and its JavaScript twin, built once (case/app/search.js:137-250).
 */
module NameIndex {
  import opened Common
  import opened NameOrder
  import opened Collab

  const NAMES: set<Id> := {"name", "alias", "P1477", "P2562"}

  // The names of a topic, and, for the index of ids, the ids it stands for. A link to another topic adds the
  // name of the property, not the id of that topic.
  function NameOf(f: Field, ids: bool): Option<string> {
    if ids then
      if f.name != IS then None else if f.value.Str? then Some(f.value.text) else Some(IS)
    else if f.name in NAMES && f.value.Str? then Some(f.value.text) else None
  }

  // Names are put in front of the list of the topic.
  function NamesOf(content: Content, ids: bool, normal: string -> string): seq<string> {
    if content == [] then []
    else
      var rest := NamesOf(content[1..], ids, normal);
      var n := NameOf(content[0], ids);
      if n.None? then rest else rest + [if ids then n.value else normal(n.value)]
  }

  lemma {:induction false} NamesPush(content: Content, f: Field, ids: bool, normal: string -> string)
    ensures NamesOf(content + [f], ids, normal) ==
            (if NameOf(f, ids).None? then []
             else [if ids then NameOf(f, ids).value else normal(NameOf(f, ids).value)]) +
            NamesOf(content, ids, normal)
  {
    if content == [] {
      assert content + [f] == [f] && [f][1..] == [];
    } else {
      NamesPush(content[1..], f, ids, normal);
      assert (content + [f])[0] == content[0] && (content + [f])[1..] == content[1..] + [f];
    }
  }

  /** Which ids lead to a topic: those its redirects give as strings. A redirect given as a link to another
      topic is found under the name of the property only. */
  lemma {:induction false} IdsIndexed(content: Content, normal: string -> string, id: Id)
    ensures id in NamesOf(content, true, normal) <==>
            exists f :: f in content && f.name == IS && (f.value == Str(id) || (!f.value.Str? && id == IS))
  {
    if content != [] {
      IdsIndexed(content[1..], normal, id);
      assert content == [content[0]] + content[1..];
    }
  }

  /** A redirect to a topic, given as a link: the index of ids finds the topic under the name of the property, and not
      under the id that it redirects. */
  lemma RedirectLost(normal: string -> string)
    ensures var content := [Field(IS, Topic("t/1/2"))];
            "t/1/2" !in NamesOf(content, true, normal) && IS in NamesOf(content, true, normal)
  {
    var f := Field(IS, Topic("t/1/2"));
    assert f in [f];
    IdsIndexed([f], normal, "t/1/2");
    IdsIndexed([f], normal, IS);
  }

  // How often a topic has a name.
  function LiveCount(topics: map<Id, seq<string>>, e: Entry): nat {
    if e.topic in topics && !e.alias then multiset(topics[e.topic])[e.name] else 0
  }

  // The list holds every name of every topic, as often as the topic has it.
  ghost predicate Live(names: seq<Entry>, topics: map<Id, seq<string>>) {
    forall e :: multiset(names)[e] == LiveCount(topics, e)
  }

  // How many more hits there is room for.
  function Room(limit: nat, found: nat): nat {
    if found > limit then 0 else limit + 1 - found
  }

  function Cut(hits: seq<Entry>, room: nat): seq<Entry> {
    if |hits| <= room then hits else hits[..room]
  }

  function Topics(hits: seq<Entry>): (r: seq<Id>)
    ensures |r| == |hits|
  {
    seq(|hits|, i requires 0 <= i < |hits| => hits[i].topic)
  }

  class TopicNameIndex {
    const normal: string -> string
    var topics: map<Id, seq<string>>
    var names: seq<Entry>

    /** The cached list is either empty or a sorted permutation of all live names. */
    ghost predicate Valid()
      reads this
    {
      names == [] || (Sorted(names) && Live(names, topics))
    }

    constructor (normal: string -> string)
      ensures Valid() && this.normal == normal && topics == map[]
    {
      this.normal := normal;
      topics := map[];
      names := [];
    }

    method Update(topic: Id, content: Content, ids: bool)
      requires Valid()
      modifies this
      ensures Valid() && topics == old(topics)[topic := NamesOf(content, ids, normal)]
    {
      var t, i := [], 0;
      while i < |content|
        invariant 0 <= i <= |content| && t == NamesOf(content[..i], ids, normal) && topics == old(topics)
      {
        NamesPush(content[..i], content[i], ids, normal);
        assert content[..i + 1] == content[..i] + [content[i]];
        var n := NameOf(content[i], ids);
        if n.Some? {
          t := [if ids then n.value else normal(n.value)] + t;
        }
        i := i + 1;
      }
      assert content[..i] == content;
      topics := topics[topic := t];
      names := [];
    }

    method Delete(topic: Id)
      requires Valid()
      modifies this
      ensures Valid() && topics == old(topics) - {topic}
    {
      topics := topics - {topic};
      names := [];
    }

    // All live names, topics in any order, then sorted.
    method Rebuild()
      requires Valid()
      modifies this`names
      ensures Valid() && Sorted(names) && Live(names, topics)
    {
      var list, rest := [], topics.Keys;
      while rest != {}
        invariant rest <= topics.Keys
        invariant forall e: Entry :: multiset(list)[e] == if e.topic in rest then 0 else LiveCount(topics, e)
        decreases rest
      {
        var t :| t in rest;
        var own := Entries(t, topics[t]);
        EntriesCount(t, topics[t]);
        list := list + own;
        rest := rest - {t};
      }
      names := SortByName(list);
    }

    /** A search appends exactly what a linear scan of the sorted list finds, cut off when the list of hits
        has one more element than the limit. */
    method Search(query: string, limit: nat, mode: Mode, found: seq<Id>) returns (matches: seq<Id>)
      requires Valid()
      modifies this`names
      ensures Valid() && Sorted(names) && Live(names, topics)
      ensures matches == found + Topics(Cut(Hits(names, normal(query), mode), Room(limit, |found|)))
    {
      if names == [] {
        Rebuild();
      }
      var q := normal(query);
      if mode.Keyword? {
        matches := Scan(q, limit, found);
      } else {
        matches := Block(q, limit, mode, found);
      }
    }

    method Scan(q: string, limit: nat, found: seq<Id>) returns (matches: seq<Id>)
      ensures matches == found + Topics(Cut(Hits(names, q, Keyword), Room(limit, |found|)))
    {
      hide Hits, Contains, Cut, Topics;
      matches := found;
      var i := 0;
      ghost var hits: seq<Entry> := [];
      NoHits(q);
      assert names[..0] == [] && found + [] == found;
      while i < |names| && |matches| <= limit
        invariant 0 <= i <= |names| && hits == Hits(names[..i], q, Keyword) && matches == found + Topics(hits)
        invariant |found| <= limit ==> |matches| <= limit + 1
        invariant |found| > limit ==> hits == []
      {
        assert names[..i + 1] == names[..i] + [names[i]];
        HitsAppend(names[..i], [names[i]], q, Keyword);
        OneHit(names[i], q, Keyword);
        if Contains(names[i].name, q) {
          TopicsGrow(hits, names[i]);
          matches := matches + [names[i].topic];
          hits := hits + [names[i]];
        }
        i := i + 1;
      }
      assert names == names[..i] + names[i..];
      HitsAppend(names[..i], names[i..], q, Keyword);
      if i == |names| {
        assert names[i..] == [] && names[..i] == names;
      }
      CutAt(hits, Hits(names[i..], q, Keyword), Room(limit, |found|));
    }

    method Block(q: string, limit: nat, mode: Mode, found: seq<Id>) returns (matches: seq<Id>)
      requires Sorted(names) && !mode.Keyword?
      ensures matches == found + Topics(Cut(Hits(names, q, mode), Room(limit, |found|)))
    {
      var lo := FindLowerBound(names, q);
      matches := found;
      var index := lo;
      while index < |names| && |matches| <= limit && Matches(names[index].name, q, mode)
        invariant lo <= index <= |names| && matches == found + Topics(names[lo..index])
        invariant forall i :: lo <= i < index ==> Matches(names[i].name, q, mode)
        invariant |found| <= limit ==> |matches| <= limit + 1
        invariant |found| > limit ==> index == lo
      {
        assert names[lo..index + 1] == names[lo..index] + [names[index]];
        matches := matches + [names[index].topic];
        index := index + 1;
      }
      ghost var hi := index;
      while hi < |names| && Matches(names[hi].name, q, mode)
        invariant index <= hi <= |names| && forall i :: lo <= i < hi ==> Matches(names[i].name, q, mode)
      {
        hi := hi + 1;
      }
      MatchesFrom(names, q, mode, lo, hi);
      SplitAt(names, lo, index, hi);
      CutAt(names[lo..index], names[index..hi], Room(limit, |found|));
    }

    /** A full match is found if and only if there is one. The name is not normalized. */
    method Find(name: string) returns (topic: Option<Id>)
      requires Valid()
      modifies this`names
      ensures Valid()
      ensures topic.Some? <==> exists t :: t in topics && name in topics[t]
      ensures topic.Some? ==> topic.value in topics && name in topics[topic.value]
    {
      if names == [] {
        Rebuild();
      }
      var e := FindName(names, name);
      if e.Some? {
        LiveIn(names, topics, e.value);
        return Some(e.value.topic);
      }
      forall t | t in topics
        ensures name !in topics[t]
      {
        LiveIn(names, topics, Entry(name, t, false));
      }
      return None;
    }
  }

  function Entries(t: Id, ns: seq<string>): (r: seq<Entry>)
    ensures |r| == |ns|
  {
    if ns == [] then [] else [Entry(ns[0], t, false)] + Entries(t, ns[1..])
  }

  lemma {:induction false} EntriesCount(t: Id, ns: seq<string>)
    ensures forall e: Entry :: multiset(Entries(t, ns))[e] == if e.topic == t && !e.alias then multiset(ns)[e.name]
            else 0
  {
    if ns != [] {
      EntriesCount(t, ns[1..]);
      assert ns == [ns[0]] + ns[1..];
      assert multiset(ns) == multiset{ns[0]} + multiset(ns[1..]);
    }
  }

  lemma LiveIn(names: seq<Entry>, topics: map<Id, seq<string>>, e: Entry)
    requires Live(names, topics)
    ensures e in names <==> e.topic in topics && !e.alias && e.name in topics[e.topic]
  {
    assert e in names <==> multiset(names)[e] > 0;
    if e.topic in topics {
      assert e.name in topics[e.topic] <==> multiset(topics[e.topic])[e.name] > 0;
    }
  }

  lemma NoHits(q: string)
    ensures Hits([], q, Keyword) == [] && Topics([]) == []
  {
  }

  lemma TopicsGrow(hits: seq<Entry>, e: Entry)
    ensures Topics(hits + [e]) == Topics(hits) + [e.topic]
  {
  }

  lemma OneHit(e: Entry, q: string, mode: Mode)
    ensures Hits([e], q, mode) == if Matches(e.name, q, mode) then [e] else []
  {
    assert [e][1..] == [];
  }

  // Stopping early cuts the list of hits, and only the room decides where.
  lemma CutAt(hits: seq<Entry>, more: seq<Entry>, room: nat)
    requires |hits| <= room && (|hits| < room ==> more == [])
    ensures Cut(hits + more, room) == hits
  {
    if more == [] {
      assert hits + more == hits;
    } else {
      assert (hits + more)[..room] == hits;
    }
  }

  lemma SplitAt(names: seq<Entry>, lo: nat, mid: nat, hi: nat)
    requires lo <= mid <= hi <= |names|
    ensures names[lo..hi] == names[lo..mid] + names[mid..hi]
  {
  }

  // ----- the index in the client -----

  // A topic as the client indexes it.
  datatype Subject = Subject(id: Id, proxy: bool, content: Content)

  // A search result: a full match or a match of the prefix, or of a part of a name.
  datatype Hit = Hit(topic: Id, alias: bool, full: bool, sub: bool)

  const ALIAS: Id := "alias"

  function EntryOf(t: Subject, f: Field, normal: string -> string): seq<Entry> {
    if f.name in NAMES && f.value.Str? then [Entry(normal(f.value.text), t.id, f.name == ALIAS)] else []
  }

  function EntriesOf(t: Subject, content: Content, normal: string -> string): seq<Entry> {
    if content == [] then [] else EntryOf(t, content[0], normal) + EntriesOf(t, content[1..], normal)
  }

  function AllEntries(ts: seq<Subject>, normal: string -> string): seq<Entry> {
    if ts == [] then []
    else (if ts[0].proxy then [] else EntriesOf(ts[0], ts[0].content, normal)) + AllEntries(ts[1..], normal)
  }

  lemma {:induction false} EntriesPush(t: Subject, content: Content, f: Field, normal: string -> string)
    ensures EntriesOf(t, content + [f], normal) == EntriesOf(t, content, normal) + EntryOf(t, f, normal)
  {
    if content == [] {
      assert content + [f] == [f] && [f][1..] == [];
    } else {
      EntriesPush(t, content[1..], f, normal);
      assert (content + [f])[0] == content[0] && (content + [f])[1..] == content[1..] + [f];
      var a, b, c := EntryOf(t, content[0], normal), EntriesOf(t, content[1..], normal), EntryOf(t, f, normal);
      assert a + (b + c) == a + b + c;
    }
  }

  lemma {:induction false} AllEntriesPush(ts: seq<Subject>, t: Subject, normal: string -> string)
    ensures AllEntries(ts + [t], normal) ==
            AllEntries(ts, normal) + if t.proxy then [] else EntriesOf(t, t.content, normal)
  {
    if ts == [] {
      assert ts + [t] == [t] && [t][1..] == [];
    } else {
      AllEntriesPush(ts[1..], t, normal);
      assert (ts + [t])[0] == ts[0] && (ts + [t])[1..] == ts[1..] + [t];
      var a := if ts[0].proxy then [] else EntriesOf(ts[0], ts[0].content, normal);
      var b, c := AllEntries(ts[1..], normal), if t.proxy then [] else EntriesOf(t, t.content, normal);
      assert a + (b + c) == a + b + c;
    }
  }

  // The matches of parts of names, topic by topic: names before aliases.
  function PartsOf(t: Subject, content: Content, prop: Id, query: string, normal: string -> string): seq<Hit> {
    if content == [] then []
    else
      (if content[0].name == prop && content[0].value.Str? && Contains(normal(content[0].value.text), query)
       then [Hit(t.id, prop == ALIAS, false, true)] else []) +
      PartsOf(t, content[1..], prop, query, normal)
  }

  function Parts(ts: seq<Subject>, query: string, normal: string -> string): seq<Hit> {
    if ts == [] then []
    else
      PartsOf(ts[0], ts[0].content, "name", query, normal) + PartsOf(ts[0], ts[0].content, ALIAS, query, normal) +
      Parts(ts[1..], query, normal)
  }

  // ----- finding topics by id -----

  /** How identifiers are told: the properties whose values identify a topic elsewhere, and how values are printed. */
  datatype Reference = Reference(external: set<Id>, printed: Datum -> string)

  // The topic that a slot redirects to this one; a string is the id of one.
  function LinkOf(f: Field): Option<Id> {
    if f.name != IS then None else if f.value.Str? then Some(f.value.text) else if f.value.Topic? then Some(f.value.id)
    else None
  }

  function IdentifierOf(f: Field, ref: Reference): Option<string> {
    if f.name in ref.external && f.name !in NAMES then Some(f.name + "/" + ref.printed(f.value)) else None
  }

  // One link replaces what was found under its id before; an identifier does not.
  function WithLink(ids: map<string, Id>, t: Id, f: Field): map<string, Id> {
    if LinkOf(f).Some? then ids[LinkOf(f).value := t] else ids
  }

  function WithIdentifier(ids: map<string, Id>, t: Id, f: Field, ref: Reference): map<string, Id> {
    var i := IdentifierOf(f, ref);
    if i.Some? && i.value !in ids then ids[i.value := t] else ids
  }

  function WithLinks(ids: map<string, Id>, t: Id, content: Content): map<string, Id> {
    if content == [] then ids else WithLink(WithLinks(ids, t, content[..|content| - 1]), t, content[|content| - 1])
  }

  function WithIdentifiers(ids: map<string, Id>, t: Id, content: Content, ref: Reference): map<string, Id> {
    if content == [] then ids
    else WithIdentifier(WithIdentifiers(ids, t, content[..|content| - 1], ref), t, content[|content| - 1], ref)
  }

  function WithSubject(ids: map<string, Id>, t: Subject, ref: Reference): map<string, Id> {
    if t.proxy then ids else WithIdentifiers(WithLinks(ids[t.id := t.id], t.id, t.content), t.id, t.content, ref)
  }

  function AllIds(ts: seq<Subject>, ref: Reference): map<string, Id> {
    if ts == [] then map[] else WithSubject(AllIds(ts[..|ts| - 1], ref), ts[|ts| - 1], ref)
  }

  lemma LastOf<T>(s: seq<T>, x: T)
    ensures (s + [x])[..|s|] == s && (s + [x])[|s|] == x
  {
  }

  // A topic has the id or a redirect from it.
  predicate Owns(t: Subject, id: string) {
    !t.proxy && (t.id == id || exists f :: f in t.content && LinkOf(f) == Some(id))
  }

  predicate Identified(t: Subject, id: string, ref: Reference) {
    !t.proxy && exists f :: f in t.content && IdentifierOf(f, ref) == Some(id)
  }

  lemma {:induction false} LinksExact(ids: map<string, Id>, t: Id, content: Content, id: string)
    ensures var r := WithLinks(ids, t, content);
            if exists f :: f in content && LinkOf(f) == Some(id) then id in r && r[id] == t
            else (id in r <==> id in ids) && (id in ids ==> r[id] == ids[id])
  {
    if content != [] {
      var rest, last := content[..|content| - 1], content[|content| - 1];
      assert content == rest + [last];
      LinksExact(ids, t, rest, id);
    }
  }

  lemma {:induction false} IdentifiersExact(ids: map<string, Id>, t: Id, content: Content, ref: Reference, id: string)
    ensures var r := WithIdentifiers(ids, t, content, ref);
            if id in ids then id in r && r[id] == ids[id]
            else (id in r <==> exists f :: f in content && IdentifierOf(f, ref) == Some(id)) && (id in r ==> r[id] == t)
  {
    if content != [] {
      var rest, last := content[..|content| - 1], content[|content| - 1];
      assert content == rest + [last];
      IdentifiersExact(ids, t, rest, ref, id);
    }
  }

  lemma SubjectExact(ids: map<string, Id>, t: Subject, ref: Reference, id: string)
    ensures var r := WithSubject(ids, t, ref);
            if Owns(t, id) then id in r && r[id] == t.id
            else if id in ids then id in r && r[id] == ids[id]
            else (id in r <==> Identified(t, id, ref)) && (id in r ==> r[id] == t.id)
  {
    if !t.proxy {
      LinksExact(ids[t.id := t.id], t.id, t.content, id);
      IdentifiersExact(WithLinks(ids[t.id := t.id], t.id, t.content), t.id, t.content, ref, id);
    }
  }

  // The last topic that has the id or is redirected to by it.
  predicate LastOwner(ts: seq<Subject>, i: nat, id: string) {
    i < |ts| && Owns(ts[i], id) && forall j :: i < j < |ts| ==> !Owns(ts[j], id)
  }

  // The first topic with an identifier that no topic owns.
  predicate FirstIdentified(ts: seq<Subject>, i: nat, id: string, ref: Reference) {
    && i < |ts| && Identified(ts[i], id, ref) && (forall j :: 0 <= j < |ts| ==> !Owns(ts[j], id))
    && forall j :: 0 <= j < i ==> !Identified(ts[j], id, ref)
  }

  // What is found under an id is as the topics say.
  ghost predicate FoundRight(ts: seq<Subject>, ref: Reference, id: string, ids: map<string, Id>) {
    && (id in ids <==> exists i :: 0 <= i < |ts| && (Owns(ts[i], id) || Identified(ts[i], id, ref)))
    && (forall i: nat :: LastOwner(ts, i, id) ==> id in ids && ids[id] == ts[i].id)
    && forall i: nat :: FirstIdentified(ts, i, id, ref) ==> id in ids && ids[id] == ts[i].id
  }

  /** Which topic is found under an id: the last one that has it or is redirected to by it, and if there is none, the
      first one that has it as an identifier elsewhere. Nothing is found if and only if there is neither. */
  lemma {:induction false} IdsExact(ts: seq<Subject>, ref: Reference, id: string)
    ensures FoundRight(ts, ref, id, AllIds(ts, ref))
  {
    hide Owns, Identified, WithSubject, FoundRight;
    if ts == [] {
      NothingFound(ref, id);
    } else {
      var rest, last := ts[..|ts| - 1], ts[|ts| - 1];
      assert ts == rest + [last];
      IdsExact(rest, ref, id);
      SubjectExact(AllIds(rest, ref), last, ref, id);
      LastWins(rest, last, ref, id, AllIds(rest, ref), AllIds(ts, ref));
    }
  }

  lemma NothingFound(ref: Reference, id: string)
    ensures FoundRight([], ref, id, AllIds([], ref))
  {
  }

  lemma LastWins(rest: seq<Subject>, last: Subject, ref: Reference, id: string, ids: map<string, Id>, r: map<string,
                 Id>)
    requires FoundRight(rest, ref, id, ids)
    requires if Owns(last, id) then id in r && r[id] == last.id
             else if id in ids then id in r && r[id] == ids[id]
             else (id in r <==> Identified(last, id, ref)) && (id in r ==> r[id] == last.id)
    ensures FoundRight(rest + [last], ref, id, r)
  {
    hide Owns, Identified;
    var ts := rest + [last];
    assert ts[|rest|] == last && forall i :: 0 <= i < |rest| ==> ts[i] == rest[i];
    forall i: nat | LastOwner(ts, i, id) ensures id in r && r[id] == ts[i].id {
      if i < |rest| {
        assert !Owns(ts[|rest|], id);
        assert LastOwner(rest, i, id);
      }
    }
    forall i: nat | FirstIdentified(ts, i, id, ref) ensures id in r && r[id] == ts[i].id {
      assert !Owns(ts[|rest|], id);
      if i < |rest| {
        assert FirstIdentified(rest, i, id, ref);
      } else {
        assert forall j :: 0 <= j < |rest| ==> !Owns(ts[j], id) && !Identified(ts[j], id, ref);
        assert id !in ids;
      }
    }
  }

  function AsHits(entries: seq<Entry>, query: string): (r: seq<Hit>)
    ensures |r| == |entries|
  {
    seq(|entries|, i requires 0 <= i < |entries| =>
      Hit(entries[i].topic, entries[i].alias, entries[i].name == query, false))
  }

  // The names and aliases of one topic.
  method Collect(t: Subject, normal: string -> string) returns (list: seq<Entry>)
    ensures list == EntriesOf(t, t.content, normal)
  {
    list := [];
    var i := 0;
    while i < |t.content|
      invariant 0 <= i <= |t.content| && list == EntriesOf(t, t.content[..i], normal)
    {
      EntriesPush(t, t.content[..i], t.content[i], normal);
      assert t.content[..i + 1] == t.content[..i] + [t.content[i]];
      list := list + EntryOf(t, t.content[i], normal);
      i := i + 1;
    }
    assert t.content[..i] == t.content;
  }

  lemma HitsGrow(entries: seq<Entry>, e: Entry, query: string)
    ensures AsHits(entries + [e], query) == AsHits(entries, query) + [Hit(e.topic, e.alias, e.name == query, false)]
  {
  }

  lemma NothingIndexed(normal: string -> string, ref: Reference)
    ensures AllEntries([], normal) == [] && AllIds([], ref) == map[]
  {
  }

  lemma OneIndexed(ts: seq<Subject>, n: nat, normal: string -> string, ref: Reference)
    requires n < |ts|
    ensures AllEntries(ts[..n + 1], normal) ==
            AllEntries(ts[..n], normal) + if ts[n].proxy then [] else EntriesOf(ts[n], ts[n].content, normal)
    ensures AllIds(ts[..n + 1], ref) ==
            if ts[n].proxy then AllIds(ts[..n], ref) else WithSubject(AllIds(ts[..n], ref), ts[n], ref)
    ensures AllEntries(ts[..n], normal) + [] == AllEntries(ts[..n], normal)
  {
    assert ts[..n + 1] == ts[..n] + [ts[n]];
    LastOf(ts[..n], ts[n]);
    AllEntriesPush(ts[..n], ts[n], normal);
  }

  lemma LinksStep(ids: map<string, Id>, t: Id, content: Content, i: nat)
    requires i < |content|
    ensures WithLinks(ids, t, content[..i + 1]) == WithLink(WithLinks(ids, t, content[..i]), t, content[i])
  {
    hide WithLink;
    assert content[..i + 1] == content[..i] + [content[i]];
    LastOf(content[..i], content[i]);
  }

  lemma IdentifiersStep(ids: map<string, Id>, t: Id, content: Content, i: nat, ref: Reference)
    requires i < |content|
    ensures WithIdentifiers(ids, t, content[..i + 1], ref) ==
            WithIdentifier(WithIdentifiers(ids, t, content[..i], ref), t, content[i], ref)
  {
    hide WithIdentifier;
    assert content[..i + 1] == content[..i] + [content[i]];
    LastOf(content[..i], content[i]);
  }

  lemma SubjectStart(ids: map<string, Id>, t: Subject, ref: Reference)
    requires !t.proxy
    ensures WithLinks(ids, t.id, []) == ids == WithIdentifiers(ids, t.id, [], ref)
    ensures WithSubject(ids, t, ref) == WithIdentifiers(WithLinks(ids[t.id := t.id], t.id, t.content), t.id, t.content,
                                                        ref)
  {
    hide WithLink, WithIdentifier;
  }

  // The ids of one topic: its own, those that it has redirects from, and its identifiers elsewhere.
  method CollectIds(before: map<string, Id>, t: Subject, ref: Reference) returns (ids: map<string, Id>)
    requires !t.proxy
    ensures ids == WithSubject(before, t, ref)
  {
    hide *;
    ids := before[t.id := t.id];
    ghost var start := ids;
    SubjectStart(start, t, ref);
    SubjectStart(before, t, ref);
    assert t.content[..0] == [] && t.content[..|t.content|] == t.content;
    for i := 0 to |t.content|
      invariant ids == WithLinks(start, t.id, t.content[..i])
    {
      LinksStep(start, t.id, t.content, i);
      ids := WithLink(ids, t.id, t.content[i]);
    }
    ghost var linked := ids;
    SubjectStart(linked, t, ref);
    for i := 0 to |t.content|
      invariant ids == WithIdentifiers(linked, t.id, t.content[..i], ref)
    {
      IdentifiersStep(linked, t.id, t.content, i, ref);
      ids := WithIdentifier(ids, t.id, t.content[i], ref);
    }
  }

  class SearchIndex {
    const normal: string -> string
    const ref: Reference
    const subjects: seq<Subject>
    var ids: map<string, Id>
    var names: seq<Entry>

    ghost predicate Valid()
      reads this
    {
      && Sorted(names) && multiset(names) == multiset(AllEntries(subjects, normal))
      && ids == AllIds(subjects, ref)
    }

    // Ids, names and aliases of all topics that are loaded; names in order.
    constructor (subjects: seq<Subject>, normal: string -> string, ref: Reference)
      ensures Valid() && this.subjects == subjects && this.normal == normal && this.ref == ref
    {
      hide *;
      this.subjects := subjects;
      this.normal := normal;
      this.ref := ref;
      ids := map[];
      names := [];
      new;
      var list, n := [], 0;
      NothingIndexed(normal, ref);
      while n < |subjects|
        invariant 0 <= n <= |subjects| && list == AllEntries(subjects[..n], normal) && ids == AllIds(subjects[..n], ref)
      {
        if !subjects[n].proxy {
          ids := CollectIds(ids, subjects[n], ref);
          var own := Collect(subjects[n], normal);
          list := list + own;
        }
        OneIndexed(subjects, n, normal, ref);
        n := n + 1;
      }
      assert subjects[..n] == subjects;
      names := SortByName(list);
      IsValid();
    }

    lemma IsValid()
      requires Sorted(names) && multiset(names) == multiset(AllEntries(subjects, normal))
      requires ids == AllIds(subjects, ref)
      ensures Valid()
    {
    }

    /** All hits: the topic that is found under the id, then what a scan of the sorted names finds, then, on demand,
        the matches of parts of names. */
    method FindHits(query: string, full: bool, keyword: bool) returns (hits: seq<Hit>)
      requires Valid()
      ensures var q, all := normal(query), AllIds(subjects, ref);
              hits == (if query in all then [Hit(all[query], false, true, false)] else []) +
                      AsHits(Hits(names, q, if full then Full else Prefix), q) +
                      (if keyword then Parts(subjects, q, normal) else [])
    {
      var q := normal(query);
      hits := if query in ids then [Hit(ids[query], false, true, false)] else [];
      var block := FindBlock(q, if full then Full else Prefix);
      hits := hits + block;
      if keyword {
        hits := hits + Parts(subjects, q, normal);
      }
    }

    // The matches from the lower bound on.
    method FindBlock(q: string, mode: Mode) returns (hits: seq<Hit>)
      requires Valid() && !mode.Keyword?
      ensures hits == AsHits(Hits(names, q, mode), q)
    {
      hide Hits, Matches, AsHits, LowerBound;
      var lo := FindLowerBound(names, q);
      var index := lo;
      hits := [];
      assert names[lo..index] == [];
      while index < |names| && Matches(names[index].name, q, mode)
        invariant lo <= index <= |names| && hits == AsHits(names[lo..index], q)
        invariant forall i :: lo <= i < index ==> Matches(names[i].name, q, mode)
      {
        assert names[lo..index + 1] == names[lo..index] + [names[index]];
        HitsGrow(names[lo..index], names[index], q);
        hits := hits + [Hit(names[index].topic, names[index].alias, names[index].name == q, false)];
        index := index + 1;
      }
      MatchesFrom(names, q, mode, lo, index);
    }

    method Find(name: string) returns (topic: Option<Id>)
      requires Valid()
      ensures var q := normal(name);
              && (topic.Some? <==> exists e :: e in AllEntries(subjects, normal) && e.name == q)
              && (topic.Some? ==> exists e :: e in AllEntries(subjects, normal) && e.name == q
                                              && e.topic == topic.value)
    {
      var e := FindName(names, normal(name));
      assert forall x :: x in names <==> x in multiset(names);
      assert forall x :: x in AllEntries(subjects, normal) <==> x in multiset(AllEntries(subjects, normal));
      return if e.Some? then Some(e.value.topic) else None;
    }
  }
}
