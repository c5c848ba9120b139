/**
 * Disjoint sets over arbitrary keys: `add`, `union` and `components`.
 * The grouping code imports its union-find from a module that is not part of
 * this model; this one is written as quick-find: every key maps to the
 * representative of its set, and a union relabels one whole set.
 */
module UnionFind {

  datatype UnionFind<K(==,!new)> = UnionFind(rep: map<K, K>) {

    /** j and k are registered and in the same set. */
    predicate Same(j: K, k: K) {
      j in rep && k in rep && rep[j] == rep[k]
    }

    /**
     * Well-formed: every representative is a registered key that stands for
     * itself. Add and Union keep this, and it holds of the empty structure.
     */
    predicate Valid() {
      forall j :: j in rep ==> rep[j] in rep && rep[rep[j]] == rep[j]
    }

    /** The set holding k. */
    function Class(k: K): set<K>
      requires k in rep
    {
      set j | j in rep && rep[j] == rep[k]
    }

    /** Registers k as its own singleton set; a key already present keeps its set. */
    function Add(k: K): (u: UnionFind<K>)
      ensures u.rep.Keys == rep.Keys + {k}
      ensures forall j, i :: Same(j, i) ==> u.Same(j, i)
      ensures k !in rep && k !in rep.Values ==> forall j :: u.Same(k, j) <==> j == k
      ensures Valid() && k !in rep ==> forall j :: u.Same(k, j) <==> j == k
      ensures Valid() ==> u.Valid()
      ensures k in rep ==> u == this
    {
      if k in rep then this else UnionFind(rep[k := k])
    }

    /** Merges the sets holding a and b; nothing else is joined. */
    function Union(a: K, b: K): (u: UnionFind<K>)
      requires a in rep && b in rep
      ensures u.rep.Keys == rep.Keys
      ensures forall j, k :: u.Same(j, k) <==>
        Same(j, k) || (Same(j, a) && Same(k, b)) || (Same(j, b) && Same(k, a))
      ensures Valid() ==> u.Valid()
    {
      var u := UnionFind(map j | j in rep :: if rep[j] == rep[b] then rep[a] else rep[j]);
      UnionJoins(a, b, u);
      UnionKeepsValid(a, b, u);
      u
    }

    lemma UnionKeepsValid(a: K, b: K, u: UnionFind<K>)
      requires a in rep && b in rep
      requires u.rep == map j | j in rep :: if rep[j] == rep[b] then rep[a] else rep[j]
      ensures Valid() ==> u.Valid()
    {
      if Valid() {
        forall j | j in u.rep
          ensures u.rep[j] in u.rep && u.rep[u.rep[j]] == u.rep[j]
        {
          if rep[j] == rep[b] {
            assert u.rep[j] == rep[a] && rep[rep[a]] == rep[a];
          } else {
            assert u.rep[j] == rep[j] && rep[rep[j]] == rep[j];
          }
        }
      }
    }

    lemma UnionJoins(a: K, b: K, u: UnionFind<K>)
      requires a in rep && b in rep
      requires u.rep == map j | j in rep :: if rep[j] == rep[b] then rep[a] else rep[j]
      ensures forall j, k :: u.Same(j, k) <==>
        Same(j, k) || (Same(j, a) && Same(k, b)) || (Same(j, b) && Same(k, a))
    {
      forall j, k ensures u.Same(j, k) <==>
        Same(j, k) || (Same(j, a) && Same(k, b)) || (Same(j, b) && Same(k, a))
      {
        if j in rep && k in rep {
          if rep[j] == rep[b] && rep[k] == rep[b] {
          } else if rep[j] == rep[b] {
            assert u.rep[j] == rep[a] && u.rep[k] == rep[k];
          } else if rep[k] == rep[b] {
            assert u.rep[k] == rep[a] && u.rep[j] == rep[j];
          } else {
            assert u.rep[k] == rep[k] && u.rep[j] == rep[j];
          }
        }
      }
    }

    /** The current partition: one set per class, every key in exactly one. */
    function Components(): (cs: set<set<K>>)
      ensures forall k :: k in rep ==> k in Class(k) && Class(k) in cs
      ensures forall C :: C in cs ==> exists k :: k in rep && C == Class(k)
    {
      set k | k in rep :: Class(k)
    }
  }
}
