/** Ancestors of a failed item along the parent ids of the done table. */
module Ancestors {
  type Graph = map<int, seq<int>>

  /** The parents of the ids of a set. */
  ghost function Up(g: Graph, s: set<int>): set<int> {
    set p, id | p in s && p in g && id in g[p] :: id
  }

  /** The ids at most k parent edges above the start. */
  ghost function Within(g: Graph, start: set<int>, k: nat): set<int> {
    if k == 0 then start else Within(g, start, k - 1) + Up(g, Within(g, start, k - 1))
  }

  lemma UpMember(g: Graph, s: set<int>, p: int, id: int)
    requires p in s && p in g && id in g[p]
    ensures id in Up(g, s)
  {
  }

  lemma UpUnion(g: Graph, a: set<int>, b: set<int>)
    ensures Up(g, a + b) == Up(g, a) + Up(g, b)
  {
  }

  lemma {:induction false} WithinGrows(g: Graph, start: set<int>, j: nat, k: nat)
    requires j <= k
    ensures Within(g, start, j) <= Within(g, start, k)
    decreases k - j
  {
    if j < k {
      WithinGrows(g, start, j, k - 1);
    }
  }

  /** The two graphs have the same parents for the ids of s. */
  ghost predicate Agree(g: Graph, h: Graph, s: set<int>) {
    forall p :: p in s ==> (p in g <==> p in h) && (p in g ==> g[p] == h[p])
  }

  lemma {:induction false} WithinAgree(g: Graph, h: Graph, start: set<int>, k: nat)
    requires k > 0 ==> Agree(g, h, Within(g, start, k - 1))
    ensures Within(h, start, k) == Within(g, start, k)
    ensures k > 0 ==> Within(h, start, k - 1) == Within(g, start, k - 1)
  {
    if k > 0 {
      if k > 1 {
        WithinGrows(g, start, k - 2, k - 1);
      }
      WithinAgree(g, h, start, k - 1);
      UpAgree(g, h, Within(g, start, k - 1));
    }
  }

  lemma UpAgree(g: Graph, h: Graph, s: set<int>)
    requires Agree(g, h, s)
    ensures Up(h, s) == Up(g, s)
  {
  }

  /** Without the parents of some ids less is found. */
  lemma {:induction false} WithinMissing(g: Graph, missed: set<int>, start: set<int>, k: nat)
    ensures Within(g - missed, start, k) <= Within(g, start, k)
  {
    if k > 0 {
      WithinMissing(g, missed, start, k - 1);
    }
  }

  lemma UpMissing(g: Graph, missed: set<int>, s: set<int>, id: int)
    requires id !in s
    ensures Up(g - (missed + {id}), s + {id}) == Up(g - (missed + {id}), s) == Up(g - missed, s)
  {
    assert Up(g - (missed + {id}), s + {id}) == Up(g - (missed + {id}), s);
    UpAgree(g - (missed + {id}), g - missed, s);
  }

  /** Once a level adds nothing, no later level does. */
  lemma {:induction false} WithinClosed(g: Graph, start: set<int>, j: nat, k: nat)
    requires j <= k && Up(g, Within(g, start, j)) <= Within(g, start, j)
    ensures Within(g, start, k) == Within(g, start, j)
    decreases k - j
  {
    if j < k {
      WithinClosed(g, start, j, k - 1);
    }
  }

  /** A path of parent edges of length k is what Within counts. */
  ghost predicate IsPath(g: Graph, path: seq<int>) {
    path != [] && forall i :: 0 <= i < |path| - 1 ==> path[i] in g && path[i + 1] in g[path[i]]
  }

  /** Being within k edges is having a path of at most k edges from the start. */
  lemma {:induction false} WithinIsPath(g: Graph, start: set<int>, k: nat, id: int)
    ensures id in Within(g, start, k) <==>
              exists path :: IsPath(g, path) && |path| <= k + 1 && path[0] in start && path[|path| - 1] == id
  {
    if id in Within(g, start, k) {
      var path := PathTo(g, start, k, id);
    }
    forall path | IsPath(g, path) && |path| <= k + 1 && path[0] in start && path[|path| - 1] == id
      ensures id in Within(g, start, k)
    {
      PathWithin(g, start, path);
      WithinGrows(g, start, |path| - 1, k);
    }
  }

  lemma {:induction false} PathTo(g: Graph, start: set<int>, k: nat, id: int) returns (path: seq<int>)
    requires id in Within(g, start, k)
    ensures IsPath(g, path) && |path| <= k + 1 && path[0] in start && path[|path| - 1] == id
  {
    if k == 0 {
      path := [id];
    } else if id in Within(g, start, k - 1) {
      path := PathTo(g, start, k - 1, id);
    } else {
      var p :| p in Within(g, start, k - 1) && p in g && id in g[p];
      path := PathTo(g, start, k - 1, p);
      path := path + [id];
    }
  }

  lemma {:induction false} PathWithin(g: Graph, start: set<int>, path: seq<int>)
    requires IsPath(g, path) && path[0] in start
    ensures path[|path| - 1] in Within(g, start, |path| - 1)
    decreases |path|
  {
    if |path| > 1 {
      var front := path[..|path| - 1];
      PathWithin(g, start, front);
      var p := front[|front| - 1];
      var i := |path| - 2;
      assert path[i] in g && path[i + 1] in g[path[i]];
      assert p == path[i] && p in Within(g, start, i);
      UpMember(g, Within(g, start, i), p, path[i + 1]);
    }
  }
}
