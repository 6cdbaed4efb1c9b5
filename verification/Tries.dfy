/**
  Prefix tries as linked nodes updated in place.  A ghost index maps every path to its node; the nodes
  are pairwise distinct and the children of a node are exactly the one-step extensions of its path.
*/
module Tries {

  class Node<K(==), V> {
    var value: V
    var children: map<K, Node<K, V>>

    constructor (value: V)
      ensures this.value == value && children == map[]
    {
      this.value := value;
      children := map[];
    }
  }

  /** `index` lists the paths of the trie rooted at `root` with their nodes. */
  ghost predicate Indexed<K(!new), V>(root: Node<K, V>, index: map<seq<K>, Node<K, V>>)
    reads index.Values`children
  {
    && [] in index && index[[]] == root
    && (forall p, q :: p in index && q in index && index[p] == index[q] ==> p == q)
    && (forall p, k :: p in index && k in index[p].children ==>
          p + [k] in index && index[p + [k]] == index[p].children[k])
    && (forall p {:trigger HasParent(index, p)} :: p in index ==> HasParent(index, p))
  }

  ghost predicate HasParent<K(!new), V>(index: map<seq<K>, Node<K, V>>, path: seq<K>)
    reads index.Values`children
  {
    path != [] ==>
      var parent := path[..|path| - 1];
      parent in index && path[|path| - 1] in index[parent].children
  }

  lemma {:induction false} PrefixIndexed<K(!new), V>(root: Node<K, V>, index: map<seq<K>, Node<K, V>>, path: seq<K>,
                                           i: nat)
    requires Indexed(root, index) && path in index && i <= |path|
    ensures path[..i] in index
    decreases |path|
  {
    if i < |path| {
      var front := path[..|path| - 1];
      assert HasParent(index, path);
      PrefixIndexed(root, index, front, i);
      assert front[..i] == path[..i];
    } else {
      assert path[..i] == path;
    }
  }

  /** A path has a child for `k` exactly when the extended path is indexed. */
  lemma ChildIndexed<K(!new), V>(root: Node<K, V>, index: map<seq<K>, Node<K, V>>, path: seq<K>, k: K)
    requires Indexed(root, index) && path in index
    ensures k in index[path].children <==> path + [k] in index
  {
    var longer := path + [k];
    if longer in index {
      assert HasParent(index, longer);
      assert longer[..|longer| - 1] == path;
    }
  }

  lemma NextPrefix<K>(path: seq<K>, i: nat)
    requires i < |path|
    ensures path[..i] + [path[i]] == path[..i + 1]
  {
  }

  /** The node at `path`, or null when the walk leaves the trie. */
  method Find<K(!new), V>(root: Node<K, V>, path: seq<K>, ghost index: map<seq<K>, Node<K, V>>)
    returns (node: Node?<K, V>)
    requires Indexed(root, index)
    ensures node != null <==> path in index
    ensures node != null ==> node == index[path]
  {
    node := root;
    var i := 0;
    while i < |path|
      invariant 0 <= i <= |path|
      invariant path[..i] in index && node == index[path[..i]]
    {
      ChildIndexed(root, index, path[..i], path[i]);
      NextPrefix(path, i);
      if path[i] !in node.children {
        if path in index {
          PrefixIndexed(root, index, path, i + 1);
        }
        return null;
      }
      node := node.children[path[i]];
      i := i + 1;
    }
    assert path[..i] == path;
  }

  /** `table` gives what the trie stores at every path; a path without a node stores `empty`. */
  ghost predicate Stores<K(!new), V>(index: map<seq<K>, Node<K, V>>, table: imap<seq<K>, V>, empty: V)
    reads index.Values`value
  {
    && (forall p :: p in table)
    && (forall p {:trigger table[p]} :: table[p] == if p in index then index[p].value else empty)
  }

  /** What a trie stores is determined by its nodes. */
  lemma StoresUnique<K(!new), V>(index: map<seq<K>, Node<K, V>>, a: imap<seq<K>, V>, b: imap<seq<K>, V>, empty: V)
    requires Stores(index, a, empty) && Stores(index, b, empty)
    ensures a == b
  {
    forall p ensures p in a && p in b && a[p] == b[p] {
    }
  }

  /** Replaces what one path stores. */
  method Write<K(!new), V>(root: Node<K, V>, node: Node<K, V>, value: V, empty: V,
                           ghost path: seq<K>, ghost index: map<seq<K>, Node<K, V>>, ghost table: imap<seq<K>, V>)
    requires Indexed(root, index) && path in index && index[path] == node && Stores(index, table, empty)
    modifies node`value
    ensures Stores(index, table[path := value], empty)
  {
    node.value := value;
  }

  /** The node at `path`, creating the missing nodes on the way; what the trie stores is unchanged. */
  method Ensure<K(!new), V>(root: Node<K, V>, path: seq<K>, empty: V,
                            ghost index: map<seq<K>, Node<K, V>>, ghost table: imap<seq<K>, V>)
    returns (node: Node<K, V>, ghost grown: map<seq<K>, Node<K, V>>)
    requires Indexed(root, index) && Stores(index, table, empty)
    modifies index.Values
    ensures Indexed(root, grown) && Stores(grown, table, empty)
    ensures path in grown && node == grown[path]
    ensures fresh(grown.Values - index.Values)
  {
    node, grown := root, index;
    var i := 0;
    while i < |path|
      invariant 0 <= i <= |path|
      invariant Indexed(root, grown) && Stores(grown, table, empty)
      invariant path[..i] in grown && node == grown[path[..i]]
      invariant fresh(grown.Values - index.Values)
    {
      NextPrefix(path, i);
      node, grown := Descend(root, node, path[i], empty, path[..i], grown, table);
      i := i + 1;
    }
    assert path[..i] == path;
  }

  /** One step of the walk: the child of `node` for `k`, created when missing. */
  method Descend<K(!new), V>(root: Node<K, V>, node: Node<K, V>, k: K, empty: V,
                             ghost path: seq<K>, ghost index: map<seq<K>, Node<K, V>>, ghost table: imap<seq<K>, V>)
    returns (child: Node<K, V>, ghost grown: map<seq<K>, Node<K, V>>)
    requires Indexed(root, index) && Stores(index, table, empty) && path in index && index[path] == node
    modifies node`children
    ensures Indexed(root, grown) && Stores(grown, table, empty)
    ensures path + [k] in grown && child == grown[path + [k]]
    ensures fresh(grown.Values - index.Values)
  {
    grown := index;
    ChildIndexed(root, index, path, k);
    if k !in node.children {
      grown := AddChild(root, node, k, empty, path, index);
    }
    child := node.children[k];
  }

  /** Hangs a fresh node below `node`. */
  method AddChild<K(!new), V>(root: Node<K, V>, node: Node<K, V>, k: K, empty: V,
                              ghost path: seq<K>, ghost index: map<seq<K>, Node<K, V>>)
    returns (ghost grown: map<seq<K>, Node<K, V>>)
    requires Indexed(root, index) && path in index && index[path] == node && path + [k] !in index
    modifies node`children
    ensures Indexed(root, grown)
    ensures path + [k] in grown && grown == index[path + [k] := grown[path + [k]]]
    ensures fresh(grown[path + [k]]) && grown[path + [k]].value == empty
    ensures node.children.Keys == old(node.children.Keys) + {k} && node.children[k] == grown[path + [k]]
  {
    ghost var longer := path + [k];
    var child := new Node<K, V>(empty);
    assert longer[..|longer| - 1] == path;
    node.children := node.children[k := child];
    grown := index[longer := child];
    forall p | p in grown
      ensures HasParent(grown, p)
    {
      if p != longer {
        assert old(HasParent(index, p));
      }
    }
    forall p, j | p in grown && j in grown[p].children
      ensures p + [j] in grown && grown[p + [j]] == grown[p].children[j]
    {
      if p != path || j != k {
        assert p + [j] != longer;
      }
    }
  }
}
