/**
 Queries grouped into blocks that share gold documents. A block's identifier is
 the digest of its sorted documents; the digest is taken as injective, so the
 set of documents stands for it.
 */
module DocumentBlocks {
  import opened Prelude

  type Query = nat
  type Doc = nat
  type Labels = map<Query, set<Doc>>

  // ------------------------------------------------------------ connection

  /** Each query in the chain shares a document with the next. */
  ghost predicate Chain(labels: Labels, chain: seq<Query>) {
    && chain != []
    && (forall i :: 0 <= i < |chain| ==> chain[i] in labels)
    && (forall i :: 0 <= i < |chain| - 1 ==> labels[chain[i]] * labels[chain[i + 1]] != {})
  }

  ghost predicate ChainBetween(labels: Labels, chain: seq<Query>, a: Query, b: Query) {
    Chain(labels, chain) && chain[0] == a && chain[|chain| - 1] == b
  }

  ghost predicate Connected(labels: Labels, a: Query, b: Query) {
    exists chain :: ChainBetween(labels, chain, a, b)
  }

  lemma ConnectedToItself(labels: Labels, a: Query)
    requires a in labels
    ensures Connected(labels, a, a)
  {
    assert ChainBetween(labels, [a], a, a);
  }

  function Backwards(chain: seq<Query>): (r: seq<Query>)
    ensures |r| == |chain|
    ensures forall i :: 0 <= i < |r| ==> r[i] == chain[|chain| - 1 - i]
  {
    if chain == [] then [] else Backwards(chain[1..]) + [chain[0]]
  }

  lemma ConnectedBothWays(labels: Labels, a: Query, b: Query)
    requires Connected(labels, a, b)
    ensures Connected(labels, b, a)
  {
    var chain :| ChainBetween(labels, chain, a, b);
    var back := Backwards(chain);
    forall i | 0 <= i < |back| - 1
      ensures labels[back[i]] * labels[back[i + 1]] != {}
    {
      var j := |chain| - 2 - i;
      assert labels[chain[j]] * labels[chain[j + 1]] == labels[back[i]] * labels[back[i + 1]];
    }
    assert ChainBetween(labels, back, b, a);
  }

  lemma ConnectedOnwards(labels: Labels, a: Query, b: Query, c: Query)
    requires Connected(labels, a, b) && Connected(labels, b, c)
    ensures Connected(labels, a, c)
  {
    var first :| ChainBetween(labels, first, a, b);
    var second :| ChainBetween(labels, second, b, c);
    var chain := first + second[1..];
    forall i | 0 <= i < |chain| - 1
      ensures labels[chain[i]] * labels[chain[i + 1]] != {}
    {
      if i >= |first| - 1 {
        var j := i - (|first| - 1);
        assert chain[i] == second[j] && chain[i + 1] == second[j + 1];
      }
    }
    assert ChainBetween(labels, chain, a, c);
  }

  lemma SharedDocumentConnects(labels: Labels, a: Query, b: Query, c: Query)
    requires Connected(labels, a, b) && c in labels && b in labels
    requires labels[b] * labels[c] != {}
    ensures Connected(labels, a, c)
  {
    assert ChainBetween(labels, [b, c], b, c);
    ConnectedOnwards(labels, a, b, c);
  }

  /** No document is shared across the border of `inside`. */
  ghost predicate Separated(labels: Labels, inside: set<Query>) {
    forall a, b :: a in inside && a in labels && b in labels && b !in inside ==> labels[a] !! labels[b]
  }

  lemma ChainStaysInside(labels: Labels, inside: set<Query>, chain: seq<Query>, i: nat)
    requires Chain(labels, chain) && Separated(labels, inside) && chain[0] in inside && i < |chain|
    ensures chain[i] in inside
  {
    if i > 0 {
      ChainStaysInside(labels, inside, chain, i - 1);
      assert labels[chain[i - 1]] * labels[chain[i - 1 + 1]] != {};
    }
  }

  lemma ConnectionStaysInside(labels: Labels, inside: set<Query>, a: Query, b: Query)
    requires Separated(labels, inside) && a in inside && Connected(labels, a, b)
    ensures b in inside
  {
    var chain :| ChainBetween(labels, chain, a, b);
    ChainStaysInside(labels, inside, chain, |chain| - 1);
  }

  // ------------------------------------------------------------- the loops

  datatype BlockError = MissingLabels

  /** `d` is a gold document of some query connected to `a`. */
  ghost predicate InBlock(labels: Labels, a: Query, d: Doc) {
    exists c :: c in labels && Connected(labels, a, c) && d in labels[c]
  }

  /** The finished part of the result says everything about its queries. */
  ghost predicate Settled(labels: Labels, blocks: map<Query, set<Doc>>) {
    && blocks.Keys <= labels.Keys
    && Separated(labels, blocks.Keys)
    && (forall a, d :: a in blocks ==> (d in blocks[a] <==> InBlock(labels, a, d)))
  }

  function Documents(labels: Labels, members: set<Query>): set<Doc>
    requires members <= labels.Keys
  {
    set q, d | q in members && d in labels[q] :: d
  }

  predicate IsLeast(q: Query, s: set<Query>) {
    q in s && forall r :: r in s ==> q <= r
  }

  lemma LeastExists(s: set<Query>)
    requires s != {}
    ensures exists q :: IsLeast(q, s)
    decreases |s|
  {
    var x :| x in s;
    var rest := s - {x};
    assert forall r :: r in s ==> r == x || r in rest;
    if rest == {} {
      assert IsLeast(x, s);
    } else {
      LeastExists(rest);
      var m :| IsLeast(m, rest);
      assert IsLeast(if x < m then x else m, s);
    }
  }

  /** One component: everything in `remaining` that a chain connects to the seed. */
  method Component(labels: Labels, remaining: set<Query>, seed: Query)
    returns (members: set<Query>, docs: set<Doc>)
    requires seed in remaining && remaining <= labels.Keys
    requires Separated(labels, labels.Keys - remaining)
    ensures seed in members && members <= remaining && docs == Documents(labels, members)
    ensures forall q :: q in members ==> Connected(labels, seed, q)
    ensures Separated(labels, members)
  {
    members, docs := {seed}, labels[seed];
    ConnectedToItself(labels, seed);
    while true
      invariant seed in members && members <= remaining && docs == Documents(labels, members)
      invariant forall q :: q in members ==> Connected(labels, seed, q)
      decreases remaining - members
    {
      var added := set q | q in remaining - members && docs * labels[q] != {};
      if added == {} {
        forall q | q in remaining - members
          ensures docs * labels[q] == {}
        {
          assert q !in added;
        }
        break;
      }
      forall q | q in added
        ensures Connected(labels, seed, q)
      {
        var d :| d in docs * labels[q];
        var m :| m in members && d in labels[m];
        assert d in labels[m] * labels[q];
        SharedDocumentConnects(labels, seed, m, q);
      }
      assert Documents(labels, members + added) == docs + Documents(labels, added);
      members := members + added;
      docs := docs + (set q, d | q in added && d in labels[q] :: d);
    }
    forall a, b | a in members && b in labels && b !in members
      ensures labels[a] !! labels[b]
    {
      if b in remaining {
        assert docs * labels[b] == {};
        assert forall d :: d in labels[a] ==> d in docs;
        forall d | d in labels[a]
          ensures d !in labels[b]
        {
          assert d !in docs * labels[b];
        }
      } else {
        assert b in labels.Keys - remaining && a !in labels.Keys - remaining;
        assert labels[b] !! labels[a];
      }
    }
  }

  method FindBlocks(labels: Labels) returns (r: Result<map<Query, set<Doc>>, BlockError>)
    ensures r.Ok? <==> forall q :: q in labels ==> labels[q] != {}
    ensures r.Ok? ==> r.value.Keys == labels.Keys && Settled(labels, r.value)
  {
    if exists q :: q in labels && labels[q] == {} {
      return Err(MissingLabels);
    }
    var remaining := labels.Keys;
    var blocks: map<Query, set<Doc>> := map[];
    while remaining != {}
      invariant remaining <= labels.Keys && blocks.Keys == labels.Keys - remaining
      invariant Settled(labels, blocks)
    {
      LeastExists(remaining);
      var seed :| IsLeast(seed, remaining);
      var members, docs := Component(labels, remaining, seed);
      SettleComponent(labels, blocks, members, docs, seed);
      blocks := blocks + map q | q in members :: docs;
      remaining := remaining - members;
    }
    r := Ok(blocks);
  }

  lemma ComponentDocuments(labels: Labels, members: set<Query>, seed: Query, a: Query, d: Doc)
    requires members <= labels.Keys && seed in members && a in members && Separated(labels, members)
    requires forall q :: q in members ==> Connected(labels, seed, q)
    ensures d in Documents(labels, members) <==> InBlock(labels, a, d)
  {
    if d in Documents(labels, members) {
      var c :| c in members && d in labels[c];
      ConnectedBothWays(labels, seed, a);
      ConnectedOnwards(labels, a, seed, c);
      assert InBlock(labels, a, d);
    }
    if InBlock(labels, a, d) {
      var c :| c in labels && Connected(labels, a, c) && d in labels[c];
      ConnectionStaysInside(labels, members, a, c);
    }
  }

  lemma SettleComponent(
      labels: Labels, blocks: map<Query, set<Doc>>, members: set<Query>, docs: set<Doc>, seed: Query)
    requires Settled(labels, blocks) && members <= labels.Keys - blocks.Keys && seed in members
    requires docs == Documents(labels, members) && Separated(labels, members)
    requires forall q :: q in members ==> Connected(labels, seed, q)
    ensures Settled(labels, blocks + map q | q in members :: docs)
  {
    var after := blocks + map q | q in members :: docs;
    assert after.Keys == blocks.Keys + members;
    forall a, d | a in after
      ensures d in after[a] <==> InBlock(labels, a, d)
    {
      if a in members {
        ComponentDocuments(labels, members, seed, a, d);
      }
    }
    forall a, b | a in after.Keys && b in labels && b !in after.Keys
      ensures labels[a] !! labels[b]
    {
      assert a in blocks.Keys || a in members;
    }
  }

  // --------------------------------------------------------------- results

  /** Two queries get the same identifier exactly when a chain of shared documents joins them. */
  lemma SameBlockIffConnected(labels: Labels, blocks: map<Query, set<Doc>>, a: Query, b: Query)
    requires blocks.Keys == labels.Keys && Settled(labels, blocks)
    requires forall q :: q in labels ==> labels[q] != {}
    requires a in labels && b in labels
    ensures blocks[a] == blocks[b] <==> Connected(labels, a, b)
  {
    if Connected(labels, a, b) {
      ConnectedBothWays(labels, a, b);
      forall d
        ensures d in blocks[a] <==> d in blocks[b]
      {
        if d in blocks[a] {
          var c :| c in labels && Connected(labels, a, c) && d in labels[c];
          ConnectedOnwards(labels, b, a, c);
          assert InBlock(labels, b, d);
        }
        if d in blocks[b] {
          var c :| c in labels && Connected(labels, b, c) && d in labels[c];
          ConnectedOnwards(labels, a, b, c);
          assert InBlock(labels, a, d);
        }
      }
    }
    if blocks[a] == blocks[b] {
      var d :| d in labels[b];
      ConnectedToItself(labels, b);
      assert InBlock(labels, b, d);
      var c :| c in labels && Connected(labels, a, c) && d in labels[c];
      assert d in labels[c] * labels[b];
      SharedDocumentConnects(labels, a, c, b);
    }
  }

  /** Different blocks share no document. */
  lemma BlocksAreDisjoint(labels: Labels, blocks: map<Query, set<Doc>>, a: Query, b: Query)
    requires blocks.Keys == labels.Keys && Settled(labels, blocks)
    requires forall q :: q in labels ==> labels[q] != {}
    requires a in labels && b in labels && blocks[a] != blocks[b]
    ensures blocks[a] !! blocks[b]
  {
    forall d | d in blocks[a] && d in blocks[b]
      ensures false
    {
      var c :| c in labels && Connected(labels, a, c) && d in labels[c];
      var e :| e in labels && Connected(labels, b, e) && d in labels[e];
      assert d in labels[c] * labels[e];
      SharedDocumentConnects(labels, a, c, e);
      ConnectedBothWays(labels, b, e);
      ConnectedOnwards(labels, a, e, b);
      SameBlockIffConnected(labels, blocks, a, b);
    }
  }

  /** The result is determined by the labels, whatever order the loops take. */
  lemma BlocksAreUnique(labels: Labels, first: map<Query, set<Doc>>, second: map<Query, set<Doc>>)
    requires first.Keys == second.Keys == labels.Keys
    requires Settled(labels, first) && Settled(labels, second)
    ensures first == second
  {
    forall q | q in labels
      ensures first[q] == second[q]
    {
      assert forall d :: d in first[q] <==> InBlock(labels, q, d);
      assert forall d :: d in second[q] <==> InBlock(labels, q, d);
    }
  }
}
