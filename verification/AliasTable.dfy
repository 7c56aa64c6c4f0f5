/** The union-find table of ReadConversation: parent pointers with recursive path
    compression, proved to refine the partition of module Aliases. */
module AliasTables {
  import opened Common
  import opened Wire
  import opened Aliases

  /** Parent chains strictly increase, so they end. */
  ghost predicate Increasing(p: map<string, string>) {
    forall k :: k in p ==> p[k] in p && (p[k] == k || Less(k, p[k]))
  }

  ghost function Above(p: map<string, string>, id: string): set<string> {
    set k | k in p && Less(id, k)
  }

  lemma AboveShrinks(p: map<string, string>, id: string, parent: string)
    requires parent in p && Less(id, parent)
    ensures Above(p, parent) < Above(p, id)
  {
    forall k | k in Above(p, parent)
      ensures k in Above(p, id)
    {
      LessTransitive(id, parent, k);
    }
    LessIrreflexive(parent);
    assert parent in Above(p, id) && parent !in Above(p, parent);
  }

  /** The end of the parent chain that starts at `id`. */
  ghost function Rep(p: map<string, string>, id: string): (r: string)
    requires Increasing(p)
    ensures id in p ==> r in p && p[r] == r
    ensures r == id || Less(id, r)
    decreases Above(p, id)
  {
    if id !in p || p[id] == id then id else
      AboveShrinks(p, id, p[id]);
      var r := Rep(p, p[id]);
      assert r == p[id] || Less(id, r) by { if r != p[id] { LessTransitive(id, p[id], r); } }
      r
  }

  lemma {:induction false} RegisterKeepsRep(p: map<string, string>, id: string, k: string)
    requires Increasing(p) && id !in p
    ensures Increasing(p[id := id]) && Rep(p[id := id], k) == Rep(p, k)
    decreases Above(p, k)
  {
    if k in p && p[k] != k {
      AboveShrinks(p, k, p[k]);
      RegisterKeepsRep(p, id, p[k]);
    }
  }

  lemma {:induction false} CompressKeepsRep(p: map<string, string>, id: string, k: string)
    requires Increasing(p) && id in p
    ensures Increasing(p[id := Rep(p, id)]) && Rep(p[id := Rep(p, id)], k) == Rep(p, k)
    decreases Above(p, k)
  {
    if k in p && p[k] != k && k != id {
      AboveShrinks(p, k, p[k]);
      CompressKeepsRep(p, id, p[k]);
    }
  }

  lemma {:induction false} AttachMovesClass(p: map<string, string>, lo: string, hi: string, k: string)
    requires Increasing(p) && lo in p && hi in p && p[lo] == lo && p[hi] == hi && (lo == hi || Less(lo, hi))
    ensures Increasing(p[lo := hi])
    ensures Rep(p[lo := hi], k) == if Rep(p, k) == lo then hi else Rep(p, k)
    decreases Above(p, k)
  {
    if k in p && p[k] != k {
      AboveShrinks(p, k, p[k]);
      AttachMovesClass(p, lo, hi, p[k]);
    }
  }

  lemma RepOfParent(p: map<string, string>, id: string)
    requires Increasing(p) && id in p
    ensures Rep(p, p[id]) == Rep(p, id)
    ensures p[id] == id ==> Rep(p, id) == id
    ensures p[Rep(p, id)] == Rep(p, id)
  {}

  ghost predicate Closed(m: Partition) {
    forall k :: k in m ==> m[k] in m && m[m[k]] == m[k]
  }

  /** The parent pointers stand for the partition. */
  ghost predicate Represents(p: map<string, string>, m: Partition) {
    Increasing(p) && Closed(m) && forall k :: Rep(p, k) == Find(m, k)
  }

  /** Registering an identity as its own parent changes no root. */
  lemma Register(p: map<string, string>, m: Partition, id: string)
    requires Represents(p, m) && id !in p
    ensures Represents(p[id := id], m)
  {
    forall k { RegisterKeepsRep(p, id, k); }
  }

  /** Pointing an identity straight at its root changes no root. */
  lemma Compress(p: map<string, string>, m: Partition, id: string)
    requires Represents(p, m) && id in p
    ensures Represents(p[id := Find(m, id)], m)
  {
    assert Rep(p, id) == Find(m, id);
    forall k { CompressKeepsRep(p, id, k); }
  }

  lemma ParentFacts(p: map<string, string>, m: Partition, id: string)
    requires Represents(p, m) && id in p
    ensures p[id] in p && Find(m, p[id]) == Find(m, id)
    ensures if p[id] == id then Find(m, id) == id else Less(id, p[id])
  {
    RepOfParent(p, id);
    assert Rep(p, p[id]) == Find(m, p[id]) && Rep(p, id) == Find(m, id);
  }

  lemma RootIsNonEmpty(p: map<string, string>, m: Partition, id: string)
    requires Represents(p, m) && id != ""
    ensures Find(m, id) != ""
  {
    assert Rep(p, id) == Find(m, id);
  }

  lemma UnionFinds(m: Partition, x: string, y: string, k: string)
    requires Closed(m)
    ensures var a, b := Find(m, x), Find(m, y);
            var hi, lo := if Less(a, b) then b else a, if Less(a, b) then a else b;
            Find(Union(m, x, y), k) == if Find(m, k) == lo then hi else Find(m, k)
  {}

  lemma UnionIsClosed(m: Partition, x: string, y: string)
    requires Closed(m)
    ensures Closed(Union(m, x, y))
  {
    hide Less;
  }

  /** Attaching the lesser root under the greater one is the union of the classes. */
  lemma AttachIsUnion(p: map<string, string>, m: Partition, x: string, y: string)
    requires Represents(p, m) && x in p && y in p
    ensures var a, b := Find(m, x), Find(m, y);
            var hi, lo := if Less(a, b) then b else a, if Less(a, b) then a else b;
            Represents(p[lo := hi], Union(m, x, y))
  {
    var a, b := Find(m, x), Find(m, y);
    assert a == Rep(p, x) && b == Rep(p, y);
    var hi, lo := if Less(a, b) then b else a, if Less(a, b) then a else b;
    LessTotal(a, b);
    hide Rep, Less, Union;
    RepOfParent(p, x);
    RepOfParent(p, y);
    UnionIsClosed(m, x, y);
    AttachMovesClass(p, lo, hi, x);
    forall k
      ensures Rep(p[lo := hi], k) == Find(Union(m, x, y), k)
    {
      AttachMovesClass(p, lo, hi, k);
      UnionFinds(m, x, y, k);
    }
  }

  class AliasTable {
    var parents: map<string, string>
    /** The partition the parent pointers stand for. */
    ghost var model: Partition

    ghost predicate Valid()
      reads this
    {
      Represents(parents, model)
    }

    constructor ()
      ensures Valid() && model == map[]
    {
      parents, model := map[], map[];
    }

    /** root: registers an unseen identity, follows the chain and compresses it.
        No identity changes its root. */
    method Root(id: string) returns (r: string)
      requires Valid()
      modifies this`parents
      ensures Valid() && r == Find(model, id)
      ensures parents.Keys == old(parents.Keys) + {id}
      decreases Above(parents, id)
    {
      hide Represents, Rep, Above, Find, Less;
      if id !in parents {
        Register(parents, model, id);
        parents := parents[id := id];
      }
      ParentFacts(parents, model, id);
      if parents[id] != id {
        AboveShrinks(parents, id, parents[id]);
        var up := Root(parents[id]);
        Compress(parents, model, id);
        parents := parents[id := up];
      }
      r := parents[id];
    }

    /** The body of link's loop: one more identity of the same usage. */
    method Join(first: string, id: string) returns (ok: bool)
      requires Valid()
      modifies this
      ensures Valid()
      ensures ok <==> !Clash(old(Find(model, first)), old(Find(model, id)))
      ensures model == if ok then Union(old(model), first, id) else old(model)
    {
      hide Represents, Union, Less;
      var a := Root(first);
      var b := Root(id);
      if a != b && ((HasPrefix(a, RESPONSE) && HasPrefix(b, RESPONSE))
        || (HasPrefix(a, PROVIDER) && HasPrefix(b, PROVIDER))) {
        return false;
      }
      AttachIsUnion(parents, model, first, id);
      if Less(a, b) {
        a, b := b, a;
      }
      parents := parents[b := a];
      model := Union(model, first, id);
      ok := true;
    }

    /** link: joins the identities of one usage, or reports ambiguous aliases. */
    method Link(u: Option<Usage>) returns (ok: bool)
      requires Valid()
      modifies this
      ensures Valid()
      ensures u.None? ==> ok && model == old(model)
      ensures u.Some? ==> LinkUsage(old(model), u.value) == if ok then Some(model) else None
    {
      hide Represents, Clash, Union;
      if u.None? { return true; }
      var u := u.value;
      var ids: seq<string> := [];
      if u.responseID != "" { ids := ids + [RESPONSE + u.responseID]; }
      if u.providerAssignedMessageID != "" { ids := ids + [PROVIDER + u.providerAssignedMessageID]; }
      if u.messageID != "" { ids := ids + [MESSAGE + u.messageID]; }
      if |ids| == 0 { return true; }
      assert ids == Ids(u);
      for i := 1 to |ids|
        invariant Valid()
        invariant LinkIds(old(model), ids[0], ids[1..]) == LinkIds(model, ids[0], ids[i..])
      {
        assert ids[i..][0] == ids[i] && ids[i..][1..] == ids[i + 1..];
        var joined := Join(ids[0], ids[i]);
        if !joined { return false; }
      }
      ok := true;
    }
  }
}
