/** Trees of switches and hosts, and the neighbour of a node that leads to another node.

    Nodes are numbered so that every node but 0 has its parent among the smaller numbers; every
    finite tree can be numbered in this way. */
module Trees {

  type Node = nat

  datatype Tree = Tree(parent: seq<Node>) {

    predicate Valid() {
      |parent| > 0 && forall i :: 1 <= i < |parent| ==> parent[i] < i
    }

    predicate Has(v: Node) {
      v < |parent|
    }

    predicate Linked(u: Node, v: Node) {
      Has(u) && Has(v) && u != v && ((u > 0 && parent[u] == v) || (v > 0 && parent[v] == u))
    }

    /** The neighbour of `v` on the way to `x`. */
    function Toward(v: Node, x: Node): (w: Node)
      requires Valid() && Has(v) && Has(x) && v != x
      ensures Has(w)
      decreases x
    {
      if x < v then parent[v]
      else if parent[x] == v then x
      else Toward(v, parent[x])
    }

    lemma {:induction false} TowardIsLinked(v: Node, x: Node)
      requires Valid() && Has(v) && Has(x) && v != x
      ensures Linked(v, Toward(v, x))
      decreases x
    {
      if x > v && parent[x] != v {
        TowardIsLinked(v, parent[x]);
      }
    }

    lemma {:induction false} TowardStaysBelow(v: Node, x: Node)
      requires Valid() && Has(v) && Has(x) && v != x
      ensures Toward(v, x) <= x || Toward(v, x) < v
      decreases x
    {
      if x > v && parent[x] != v {
        TowardStaysBelow(v, parent[x]);
      }
    }

    /** Between a node and its parent, every third node is on exactly one side. */
    lemma {:induction false} OneSideOfChild(w: Node, x: Node)
      requires Valid() && Has(w) && w > 0 && Has(x) && x != w && x != parent[w]
      ensures Toward(parent[w], x) == w <==> Toward(w, x) != parent[w]
      decreases x
    {
      var v := parent[w];
      if x < w {
        TowardStaysBelow(v, x);
      } else {
        var p := parent[x];
        if p == w {
          assert Toward(v, w) == w;
        } else if p == v {
          assert Toward(w, v) == v;
        } else {
          OneSideOfChild(w, p);
        }
      }
    }

    /** Removing a link leaves every other node on exactly one of its two sides. */
    lemma OneSide(u: Node, v: Node, x: Node)
      requires Valid() && Linked(u, v) && Has(x) && x != u && x != v
      ensures Toward(u, x) == v <==> Toward(v, x) != u
    {
      if u > 0 && parent[u] == v {
        OneSideOfChild(u, x);
      } else {
        OneSideOfChild(v, x);
      }
    }

    lemma TowardNeighbour(u: Node, v: Node)
      requires Valid() && Linked(u, v)
      ensures Toward(u, v) == v
    {
    }

    /** `v` lies between `s` and `d`, or is one of them. */
    predicate Between(v: Node, s: Node, d: Node)
      requires Valid() && Has(v) && Has(s) && Has(d)
    {
      v == s || v == d || Toward(v, s) != Toward(v, d)
    }

    /** Following the way to `d` from a node between `s` and `d` stays between them, and leads away from `s`. */
    lemma BetweenContinues(v: Node, s: Node, d: Node)
      requires Valid() && Has(v) && Has(s) && Has(d) && s != d && v != d && Between(v, s, d)
      ensures var w := Toward(v, d); w != s && Between(w, s, d) && Toward(w, s) == v
    {
      var w := Toward(v, d);
      TowardIsLinked(v, d);
      if v == s {
        TowardNeighbour(w, v);
        if w != d {
          OneSide(v, w, d);
        }
      } else {
        if w == s {
          TowardNeighbour(v, w);
        } else {
          OneSide(v, w, s);
        }
        if w != d {
          OneSide(v, w, d);
        }
      }
    }

    /** A neighbour that does not lead to `s` has this node as its own way to `s`. */
    lemma BackAndForth(u: Node, v: Node, s: Node)
      requires Valid() && Linked(u, v) && Has(s) && s != u && Toward(u, s) != v
      ensures v != s && Toward(v, s) == u
    {
      if v == s {
        TowardNeighbour(u, v);
      } else {
        OneSide(u, v, s);
      }
    }
  }
}
