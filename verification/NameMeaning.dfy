/**
  What a search by name finds (case/collabd.cc:675-686, 725-808): dictionary order, parts of names, which slots hold
  names, and how many hits there are.
 */
module NameMeaning {
  import opened Common
  import opened Collab
  import opened NameOrder
  import opened NameIndex

  /** One word comes before another if the two differ first where its character is smaller, or where it ends. */
  lemma {:induction false} LessExact(a: string, b: string)
    ensures Less(a, b) <==>
            exists i :: 0 <= i <= |a| && i < |b| && a[..i] == b[..i] && (i == |a| || a[i] < b[i])
  {
    if a != "" && b != "" {
      LessExact(a[1..], b[1..]);
      forall i | 0 < i <= |a| && i < |b| && a[..i] == b[..i]
        ensures a[0] == b[0]
      {
        assert a[..i][0] == b[..i][0];
      }
      if a[0] == b[0] {
        if i :| 0 <= i <= |a| && i < |b| && a[..i] == b[..i] && (i == |a| || a[i] < b[i]) {
          if i > 0 {
            assert a[1..][..i - 1] == a[..i][1..] == b[..i][1..] == b[1..][..i - 1];
          }
        }
        if i :| 0 <= i <= |a[1..]| && i < |b[1..]| && a[1..][..i] == b[1..][..i]
                && (i == |a[1..]| || a[1..][i] < b[1..][i]) {
          assert a[..i + 1] == [a[0]] + a[1..][..i] && b[..i + 1] == [b[0]] + b[1..][..i];
        }
      }
      if a[0] < b[0] {
        assert a[..0] == b[..0];
      }
    } else if b != "" {
      assert a[..0] == b[..0];
    }
  }

  // A part of a word stands at a position.
  predicate StandsAt(s: string, part: string, i: nat) {
    i + |part| <= |s| && s[i..i + |part|] == part
  }

  /** A word contains a part that stands somewhere in it. */
  lemma {:induction false} ContainsExact(s: string, part: string)
    ensures Contains(s, part) <==> exists i: nat :: StandsAt(s, part, i)
  {
    assert IsPrefix(part, s) <==> StandsAt(s, part, 0);
    if s != "" {
      ContainsExact(s[1..], part);
      if i: nat :| StandsAt(s[1..], part, i) {
        assert s[i + 1..i + 1 + |part|] == s[1..][i..i + |part|];
        assert StandsAt(s, part, i + 1);
      }
    }
    if i: nat :| StandsAt(s, part, i) {
      if i > 0 {
        assert s[i..i + |part|] == s[1..][i - 1..i - 1 + |part|];
        assert StandsAt(s[1..], part, i - 1);
      }
    }
  }

  /** What the three kinds of searches ask for: the beginning of the name, the whole name, or a part of it. */
  lemma MatchesExact(name: string, query: string)
    ensures Matches(name, query, Prefix) <==> StandsAt(name, query, 0)
    ensures Matches(name, query, Full) <==> name == query
    ensures Matches(name, query, Keyword) <==> exists i: nat :: StandsAt(name, query, i)
  {
    ContainsExact(name, query);
  }

  /** Every matching entry is a hit as often as it is in the list, and nothing else is; hits of the first part of the
      list come first. */
  lemma {:induction false} HitsExact(names: seq<Entry>, query: string, mode: Mode, e: Entry, i: nat)
    requires i <= |names|
    ensures multiset(Hits(names, query, mode))[e] == if Matches(e.name, query, mode) then multiset(names)[e] else 0
    ensures Hits(names, query, mode) == Hits(names[..i], query, mode) + Hits(names[i..], query, mode)
  {
    hide Matches;
    assert names == names[..i] + names[i..];
    HitsAppend(names[..i], names[i..], query, mode);
    if names != [] {
      assert names == [names[0]] + names[1..];
      HitsExact(names[1..], query, mode, e, 0);
    }
  }

  /** A search stops when it has one hit more than the limit, counting those found before; below that it gives all
      hits, and what it gives is the beginning of the list of hits. */
  lemma CutExact(hits: seq<Entry>, limit: nat, found: nat)
    ensures var r := Cut(hits, Room(limit, found));
            && r <= hits
            && (found + |hits| <= limit + 1 ==> r == hits)
            && (found <= limit + 1 <= found + |hits| ==> found + |r| == limit + 1)
            && (found > limit ==> r == [])
  {
  }

  /** The names of a topic are the strings in its slots for names and aliases, names at birth and married names, and
      nothing else. */
  lemma {:induction false} NamesExact(content: Content, normal: string -> string, name: string)
    ensures name in NamesOf(content, false, normal) <==>
            exists f :: f in content && f.name in {"name", "alias", "P1477", "P2562"} && f.value.Str? &&
                        normal(f.value.text) == name
  {
    if content != [] {
      NamesExact(content[1..], normal, name);
      assert content == [content[0]] + content[1..];
    }
  }

  /** The list in the client has an entry for every such slot of every topic that is not a proxy, with its topic; only
      slots for aliases are marked as such. */
  lemma {:induction false} EntriesExact(ts: seq<Subject>, normal: string -> string, e: Entry)
    ensures e in AllEntries(ts, normal) <==>
            exists t, f :: t in ts && !t.proxy && f in t.content && f.name in {"name", "alias", "P1477", "P2562"} &&
                           f.value.Str? && e == Entry(normal(f.value.text), t.id, f.name == "alias")
  {
    if ts != [] {
      EntriesExact(ts[1..], normal, e);
      OwnEntries(ts[0], ts[0].content, normal, e);
      assert ts == [ts[0]] + ts[1..];
    }
  }

  lemma {:induction false} OwnEntries(t: Subject, content: Content, normal: string -> string, e: Entry)
    ensures e in EntriesOf(t, content, normal) <==>
            exists f :: f in content && f.name in {"name", "alias", "P1477", "P2562"} && f.value.Str? &&
                        e == Entry(normal(f.value.text), t.id, f.name == "alias")
  {
    if content != [] {
      OwnEntries(t, content[1..], normal, e);
      assert content == [content[0]] + content[1..];
    }
  }

  /** Links that redirect to a topic are given as strings or as links; identifiers are told with their property. */
  lemma LinksMeaning(f: Field, ref: Reference, id: Id)
    ensures LinkOf(f) == Some(id) <==> f.name == "is" && (f.value == Str(id) || f.value == Topic(id))
    ensures IdentifierOf(f, ref) == Some(id) <==>
            f.name in ref.external && f.name !in {"name", "alias", "P1477", "P2562"} &&
            id == f.name + "/" + ref.printed(f.value)
  {
  }

  /** Entries become hits one by one: full when the name is the query, and none of them a part. */
  lemma {:induction false} AsHitsExact(es: seq<Entry>, query: string)
    ensures |AsHits(es, query)| == |es|
    ensures forall i :: 0 <= i < |es| ==>
              AsHits(es, query)[i] == Hit(es[i].topic, es[i].alias, es[i].name == query, false)
  {
    if es != [] {
      AsHitsExact(es[1..], query);
    }
  }

  // A slot of a topic with a name or an alias of which the query is a part.
  ghost predicate PartIn(t: Subject, f: Field, query: string, normal: string -> string, hit: Hit) {
    && f in t.content && (f.name == "name" || f.name == "alias") && f.value.Str?
    && hit == Hit(t.id, f.name == "alias", false, true) && exists i: nat :: StandsAt(normal(f.value.text), query, i)
  }

  /** The hits of a keyword search are the names and aliases of which the query is a part, and nothing else. */
  lemma {:induction false} PartsExact(ts: seq<Subject>, query: string, normal: string -> string, hit: Hit)
    ensures hit in Parts(ts, query, normal) <==> exists t, f :: t in ts && PartIn(t, f, query, normal, hit)
  {
    hide PartIn;
    if ts != [] {
      var t := ts[0];
      PartsExact(ts[1..], query, normal, hit);
      OwnParts(t, t.content, "name", query, normal, hit);
      OwnParts(t, t.content, "alias", query, normal, hit);
      assert ts == [t] + ts[1..];
      BothKinds(t, query, normal, hit);
    }
  }

  lemma BothKinds(t: Subject, query: string, normal: string -> string, hit: Hit)
    ensures (exists f :: PartIn(t, f, query, normal, hit)) <==>
            PartOf(t, t.content, "name", query, normal, hit) || PartOf(t, t.content, "alias", query, normal, hit)
  {
    if f :| PartIn(t, f, query, normal, hit) {
      ContainsExact(normal(f.value.text), query);
      assert PartOf(t, t.content, f.name, query, normal, hit);
    }
    if PartOf(t, t.content, "name", query, normal, hit) {
      var f :| f in t.content && HasPart(t, f, "name", query, normal, hit);
      ContainsExact(normal(f.value.text), query);
      assert PartIn(t, f, query, normal, hit);
    }
    if PartOf(t, t.content, "alias", query, normal, hit) {
      var f :| f in t.content && HasPart(t, f, "alias", query, normal, hit);
      ContainsExact(normal(f.value.text), query);
      assert PartIn(t, f, query, normal, hit);
    }
  }

  predicate HasPart(t: Subject, f: Field, prop: Id, query: string, normal: string -> string, hit: Hit) {
    f.name == prop && f.value.Str? && Contains(normal(f.value.text), query)
    && hit == Hit(t.id, prop == "alias", false, true)
  }

  predicate PartOf(t: Subject, content: Content, prop: Id, query: string, normal: string -> string, hit: Hit) {
    exists f :: f in content && HasPart(t, f, prop, query, normal, hit)
  }

  lemma {:induction false} OwnParts(t: Subject, content: Content, prop: Id, query: string, normal: string -> string,
                                    hit: Hit)
    ensures hit in PartsOf(t, content, prop, query, normal) <==> PartOf(t, content, prop, query, normal, hit)
  {
    hide Contains, HasPart;
    if content != [] {
      var rest := content[1..];
      OwnParts(t, rest, prop, query, normal, hit);
      assert content == [content[0]] + rest;
      FirstPart(t, content, prop, query, normal, hit);
      if PartOf(t, rest, prop, query, normal, hit) {
        var f :| f in rest && HasPart(t, f, prop, query, normal, hit);
        assert f in content;
      }
      if PartOf(t, content, prop, query, normal, hit) && !HasPart(t, content[0], prop, query, normal, hit) {
        var f :| f in content && HasPart(t, f, prop, query, normal, hit);
        assert f in rest;
      }
    }
  }

  lemma FirstPart(t: Subject, content: Content, prop: Id, query: string, normal: string -> string, hit: Hit)
    requires content != []
    ensures hit in PartsOf(t, content, prop, query, normal) <==>
            HasPart(t, content[0], prop, query, normal, hit) || hit in PartsOf(t, content[1..], prop, query, normal)
  {
    hide Contains;
  }
}
