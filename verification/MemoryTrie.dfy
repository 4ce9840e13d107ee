/**
 The in-memory trie: the root of one batch on its own, with nothing kept afterwards.
 */
module InMemory {
  import opened Keys
  import opened Trie
  import opened TreeUpdate
  import opened Batch
  import opened Smt
  import opened ExactUpdate

  class MemoryTrie {
    const smt: SMT

    ghost predicate Valid()
      reads this, smt, smt.db
    {
      && smt.Valid() && smt.root == Empty && smt.prevRoot == Empty
      && smt.updatedNodes == map[] && smt.db.nodes == map[]
    }

    constructor ()
      ensures Valid() && fresh(smt) && fresh(smt.db)
    {
      var db := new Database();
      smt := new SMT(db, Empty);
    }

    /** Each call answers with the tree of its own batch, whatever was asked before. */
    method Update(keys: seq<seq<bv8>>, values: seq<Field>) returns (res: UpdateResult)
      requires Valid() && InOrder(keys)
      modifies smt
      ensures Valid()
      ensures res.Accepted? <==>
                && WellSized(keys, values) && Distinct(keys) && keys != []
                && forall i :: 0 <= i < |keys| ==> values[i].word != Default
      ensures res.Accepted? ==> res.root == Bare(Canon(Asked(Zip(keys, values)), []))
    {
      hide Less, Sorted, Canon, Asked, UpdateTree, Coherent, Written, Grown, Apply, Shaped, Rescues, Explained;
      res := smt.Update(keys, values);
      if res.Accepted? {
        var kvs := Zip(keys, values);
        MergeableRescues(map[], kvs);
        BatchAlone(kvs);
        assert smt.root.word in smt.updatedNodes;
        smt.Discard();
      }
    }
  }

  lemma BatchAlone(kvs: seq<KV>)
    requires kvs != [] && Sorted(kvs) && forall i :: 0 <= i < |kvs| ==> kvs[i].value != Default
    ensures Apply(map[], Asked(kvs)) == Asked(kvs) && Canon(Asked(kvs), []) != Default
  {
    hide Less;
    AskedAt(kvs);
    assert kvs[0].key in Asked(kvs);
    CanonIsCanonical(Asked(kvs), []);
  }
}
