/** The history of a repository: a finite graph of commits, each with its parents, without cycles. */
module CommitGraph {

  type Commit = string

  /** `depth` is larger for a commit than for each of its parents, so no line of history returns. */
  datatype Graph = Graph(parents: map<Commit, set<Commit>>, depth: map<Commit, nat>)

  ghost predicate Acyclic(g: Graph) {
    && g.depth.Keys == g.parents.Keys
    && forall c | c in g.parents :: forall p | p in g.parents[c] :: p in g.parents && g.depth[p] < g.depth[c]
  }

  /** `git merge-base --is-ancestor a c`: `a` is `c` or on its history. */
  ghost predicate Reaches(g: Graph, a: Commit, c: Commit)
    requires Acyclic(g)
    decreases if c in g.parents then g.depth[c] + 1 else 0
  {
    c in g.parents && (a == c || exists p | p in g.parents[c] :: Reaches(g, a, p))
  }

  ghost predicate Descends(g: Graph, a: Commit, c: Commit)
    requires Acyclic(g)
  {
    a != c && Reaches(g, a, c)
  }

  lemma {:induction false} ReachesDeeper(g: Graph, a: Commit, c: Commit)
    requires Acyclic(g) && Reaches(g, a, c)
    ensures a in g.parents && g.depth[a] <= g.depth[c]
    ensures a != c ==> g.depth[a] < g.depth[c]
    decreases g.depth[c]
  {
    if a != c {
      var p :| p in g.parents[c] && Reaches(g, a, p);
      ReachesDeeper(g, a, p);
    }
  }

  lemma {:induction false} ReachesTransitive(g: Graph, a: Commit, b: Commit, c: Commit)
    requires Acyclic(g) && Reaches(g, a, b) && Reaches(g, b, c)
    ensures Reaches(g, a, c)
    decreases g.depth[c]
  {
    if b != c {
      var p :| p in g.parents[c] && Reaches(g, b, p);
      ReachesTransitive(g, a, b, p);
    }
  }

  /** No two commits are each on the other's history. */
  lemma ReachesAntisymmetric(g: Graph, a: Commit, b: Commit)
    requires Acyclic(g) && Reaches(g, a, b) && Reaches(g, b, a)
    ensures a == b
  {
    ReachesDeeper(g, a, b);
    ReachesDeeper(g, b, a);
  }

  /** `g` grew into `h`: new commits, the old ones with the parents they had. */
  ghost predicate GrewInto(g: Graph, h: Graph) {
    && g.parents.Keys <= h.parents.Keys
    && forall c | c in g.parents :: h.parents[c] == g.parents[c]
  }

  /** The history of a commit never changes. */
  lemma {:induction false} HistoryIsFixed(g: Graph, h: Graph, a: Commit, c: Commit)
    requires Acyclic(g) && Acyclic(h) && GrewInto(g, h) && c in g.parents
    ensures Reaches(g, a, c) <==> Reaches(h, a, c)
    decreases g.depth[c]
  {
    forall p | p in g.parents[c]
      ensures Reaches(g, a, p) <==> Reaches(h, a, p)
    {
      HistoryIsFixed(g, h, a, p);
    }
  }

  /** `git rev-list --ancestry-path base..head`: after `base`, and `head` or on its history. */
  ghost predicate Between(g: Graph, base: Commit, c: Commit, head: Commit)
    requires Acyclic(g)
  {
    Descends(g, base, c) && Reaches(g, c, head)
  }
}
