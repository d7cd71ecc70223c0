/** The disjoint-set forest with path compression (DisjointSetUnion). */
module DisjointSets {

  /** One element of the forest: its parent shares its representative, which is its own
      parent; every link leads strictly closer to it. */
  ghost predicate LeadsToRoot<T>(parent: map<T, T>, root: map<T, T>, height: map<T, nat>, v: T)
    requires parent.Keys == root.Keys == height.Keys && v in parent
  {
    && parent[v] in parent && root[v] in parent
    && root[parent[v]] == root[v] && parent[root[v]] == root[v] && root[root[v]] == root[v]
    && (parent[v] == v ==> root[v] == v)
    && (parent[v] != v ==> height[parent[v]] < height[v] && height[root[v]] < height[v])
  }

  /** `root` names the representative every parent chain ends in; `height` bounds the length
      of the chain. */
  ghost predicate Forest<T>(parent: map<T, T>, root: map<T, T>, height: map<T, nat>) {
    && parent.Keys == root.Keys == height.Keys
    && (forall v {:trigger LeadsToRoot(parent, root, height, v)} :: v in parent ==>
      LeadsToRoot(parent, root, height, v))
  }

  /** `n` steps up the parent chain. */
  function Climb<T>(parent: map<T, T>, v: T, n: nat): T {
    if n == 0 || v !in parent then v else Climb(parent, parent[v], n - 1)
  }

  /** The representative is what the parent chain leads to: `findRoot` terminates. */
  lemma {:induction false} ChainEndsInRoot<T>(parent: map<T, T>, root: map<T, T>, height: map<T, nat>, v: T, n: nat)
    requires Forest(parent, root, height) && v in parent && height[v] <= n
    ensures Climb(parent, v, n) == root[v]
    decreases n
  {
    assert LeadsToRoot(parent, root, height, v);
    if n > 0 {
      if parent[v] == v {
        StaysAtRoot(parent, v, n);
      } else {
        ChainEndsInRoot(parent, root, height, parent[v], n - 1);
      }
    }
  }

  lemma {:induction false} StaysAtRoot<T>(parent: map<T, T>, v: T, n: nat)
    requires v in parent && parent[v] == v
    ensures Climb(parent, v, n) == v
  {
    if n > 0 { StaysAtRoot(parent, v, n - 1); }
  }

  /** Two descriptions of the same forest agree on the representatives. */
  lemma RootsDetermined<T>(parent: map<T, T>, root: map<T, T>, height: map<T, nat>, root': map<T, T>,
                           height': map<T, nat>)
    requires Forest(parent, root, height) && Forest(parent, root', height')
    ensures root == root'
  {
    forall v | v in parent ensures root[v] == root'[v] {
      var n := if height[v] < height'[v] then height'[v] else height[v];
      ChainEndsInRoot(parent, root, height, v, n);
      ChainEndsInRoot(parent, root', height', v, n);
    }
  }

  /** The representatives once the classes of `x` and `y` are one, under y's. */
  function Merged<T(==)>(root: map<T, T>, x: T, y: T): (r: map<T, T>)
    requires x in root && y in root
    ensures r.Keys == root.Keys
  {
    map v | v in root :: if root[v] == root[x] then root[y] else root[v]
  }

  /** Merging joins exactly the two argument classes. */
  lemma MergedClasses<T>(root: map<T, T>, x: T, y: T, u: T, v: T)
    requires x in root && y in root && u in root && v in root
    ensures Merged(root, x, y)[u] == Merged(root, x, y)[v] <==>
      root[u] == root[v]
      || (root[u] == root[x] && root[v] == root[y]) || (root[u] == root[y] && root[v] == root[x])
  {
  }

  lemma ForestInit<T>(parent: map<T, T>, root: map<T, T>, height: map<T, nat>, v: T)
    requires Forest(parent, root, height) && v !in parent
    ensures Forest(parent[v := v], root[v := v], height[v := 0])
  {
    var parent', root', height' := parent[v := v], root[v := v], height[v := 0];
    forall u | u in parent' ensures LeadsToRoot(parent', root', height', u) {
      if u != v { assert LeadsToRoot(parent, root, height, u); }
    }
  }

  lemma ForestCompress<T>(parent: map<T, T>, root: map<T, T>, height: map<T, nat>, v: T)
    requires Forest(parent, root, height) && v in parent && parent[v] != v
    ensures Forest(parent[v := root[v]], root, height)
  {
    assert LeadsToRoot(parent, root, height, v);
    forall u | u in parent ensures LeadsToRoot(parent[v := root[v]], root, height, u) {
      assert LeadsToRoot(parent, root, height, u);
    }
  }

  function Raised<T>(root: map<T, T>, height: map<T, nat>, x: T, extra: nat): (r: map<T, nat>)
    requires root.Keys == height.Keys
    ensures r.Keys == root.Keys
  {
    map v | v in root :: if root[v] == x then height[v] + extra else height[v]
  }

  lemma ForestUnion<T>(parent: map<T, T>, root: map<T, T>, height: map<T, nat>, x: T, y: T)
    requires Forest(parent, root, height) && x in root && y in root
    ensures root[x] == root[y] ==> Merged(root, x, y) == root && parent[root[x] := root[y]] == parent
    ensures root[x] != root[y] ==>
      root[y] in height &&
      Forest(parent[root[x] := root[y]], Merged(root, x, y), Raised(root, height, root[x], height[root[y]] + 1))
  {
    var rx, ry := root[x], root[y];
    assert LeadsToRoot(parent, root, height, x) && LeadsToRoot(parent, root, height, y);
    if rx != ry {
      ForestLinked(parent, root, height, rx, ry, Merged(root, x, y), Raised(root, height, rx, height[ry] + 1));
    }
  }

  lemma ForestLinked<T>(parent: map<T, T>, root: map<T, T>, height: map<T, nat>, rx: T, ry: T, root': map<T, T>,
                        height': map<T, nat>)
    requires Forest(parent, root, height) && rx in root && ry in root && rx != ry && root[rx] == rx && root[ry] == ry
    requires root' == map v | v in root :: if root[v] == rx then ry else root[v]
    requires height' == Raised(root, height, rx, height[ry] + 1)
    ensures Forest(parent[rx := ry], root', height')
  {
    forall u | u in parent ensures root'.Keys == parent.Keys && LeadsToRoot(parent[rx := ry], root', height', u) {
      UnionLinked(parent, root, height, rx, ry, root', height', u);
    }
  }

  lemma UnionLinked<T>(parent: map<T, T>, root: map<T, T>, height: map<T, nat>, rx: T, ry: T, root': map<T, T>,
                       height': map<T, nat>, u: T)
    requires Forest(parent, root, height) && u in parent && rx in root && ry in root && rx != ry && root[rx] == rx
    requires root[ry] == ry
    requires root' == map v | v in root :: if root[v] == rx then ry else root[v]
    requires height' == Raised(root, height, rx, height[ry] + 1)
    ensures root'.Keys == parent.Keys && LeadsToRoot(parent[rx := ry], root', height', u)
  {
    assert LeadsToRoot(parent, root, height, u) && LeadsToRoot(parent, root, height, ry);
  }

  class DisjointSetUnion<T(==)> {
    var parent: map<T, T>
    ghost var root: map<T, T>
    ghost var height: map<T, nat>

    ghost predicate Valid()
      reads this
    {
      Forest(parent, root, height)
    }

    constructor ()
      ensures Valid() && root == map[]
    {
      parent, root, height := map[], map[], map[];
    }

    method Init(v: T)
      requires Valid() && v !in parent
      modifies this
      ensures Valid() && root == old(root)[v := v]
    {
      ForestInit(parent, root, height, v);
      parent := parent[v := v];
      root := root[v := v];
      height := height[v := 0];
    }

    function ValueExists(v: T): (r: bool)
      reads this
      ensures Valid() ==> (r <==> v in root)
    {
      v in parent
    }

    /** Path compression moves links, never representatives. */
    method FindRoot(v: T) returns (r: T)
      requires Valid() && v in root
      modifies this`parent
      ensures Valid()
      ensures r == root[v]
      ensures forall u :: u in parent ==> parent[u] == old(parent)[u] || parent[u] == root[u]
      decreases height[v]
    {
      assert LeadsToRoot(parent, root, height, v);
      if v == parent[v] {
        return v;
      }
      r := FindRoot(parent[v]);
      if parent[v] != v { ForestCompress(parent, root, height, v); }
      parent := parent[v := r];
    }

    method UnionSets(x: T, y: T) returns (r: T)
      requires Valid() && x in root && y in root
      modifies this
      ensures Valid()
      ensures root == Merged(old(root), x, y)
      ensures r == old(root)[y]
    {
      var rootX := FindRoot(x);
      var rootY := FindRoot(y);
      ForestUnion(parent, root, height, x, y);
      parent := parent[rootX := rootY];
      if rootX != rootY {
        height := Raised(root, height, rootX, height[rootY] + 1);
      }
      root := Merged(root, x, y);
      return rootY;
    }
  }
}
