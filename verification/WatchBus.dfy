/**
  The in-memory watch bus: channels watch keys or subscribe to prefixes, and a trie of runes keeps, at
  every non-root node, the set of channels watching some key below it. The index is specified by the
  plain registry of who watches and who subscribes to what. Channels are numbered by creation.
*/
module WatchBus {
  import opened Tries

  type Key = seq<char>

  datatype Cell = Cell(subs: seq<nat>, watchers: set<nat>)

  const EMPTY: Cell := Cell([], {})

  type Registry = map<nat, Key>

  // ----- The reference: scanning the registry -----

  /** Everyone a publication on `key` is for. */
  function PublishScan(watching: Registry, subscribed: Registry, key: Key): set<nat> {
    (set ch | ch in watching && watching[ch] == key) + (set ch | ch in subscribed && subscribed[ch] <= key)
  }

  /** Everyone a publication on `prefix` is for. */
  function PrefixScan(watching: Registry, subscribed: Registry, prefix: Key): set<nat> {
    (set ch | ch in watching && prefix <= watching[ch]) + (set ch | ch in subscribed && subscribed[ch] == prefix)
  }

  /** What `Publish` reaches: it never looks at the root, where subscriptions to "" are kept. */
  function PublishTargets(watching: Registry, subscribed: Registry, key: Key): set<nat> {
    PublishScan(watching, map ch | ch in subscribed && subscribed[ch] != [] :: subscribed[ch], key)
  }

  /** What `PublishPrefix` reaches: watchers are never recorded at the root. */
  function PrefixTargets(watching: Registry, subscribed: Registry, prefix: Key): set<nat> {
    PrefixScan(if prefix == [] then map[] else watching, subscribed, prefix)
  }

  /** `Publish` reaches all it is for, whatever the key, exactly when nobody subscribed to "". */
  lemma PublishIsScan(watching: Registry, subscribed: Registry)
    requires forall ch :: ch in watching ==> ch !in subscribed
    ensures (forall key :: PublishTargets(watching, subscribed, key) == PublishScan(watching, subscribed, key))
            <==> (forall ch :: ch in subscribed ==> subscribed[ch] != [])
  {
    var heard := map ch | ch in subscribed && subscribed[ch] != [] :: subscribed[ch];
    if forall ch :: ch in subscribed ==> subscribed[ch] != [] {
      assert heard == subscribed;
    } else {
      var ch :| ch in subscribed && subscribed[ch] == [];
      assert ch in PublishScan(watching, subscribed, []);
      assert ch !in PublishTargets(watching, subscribed, []);
    }
  }

  /** `PublishPrefix` reaches all it is for exactly when the prefix is not "" or nobody watches. */
  lemma PublishPrefixIsScan(watching: Registry, subscribed: Registry, prefix: Key)
    requires forall ch :: ch in watching ==> ch !in subscribed
    ensures PrefixTargets(watching, subscribed, prefix) == PrefixScan(watching, subscribed, prefix)
            <==> prefix != [] || watching == map[]
  {
    if prefix == [] && watching != map[] {
      var ch :| ch in watching;
      assert ch in PrefixScan(watching, subscribed, prefix);
      assert ch !in PrefixTargets(watching, subscribed, prefix);
    }
  }

  // ----- Swap-removal from a list of channels -----

  ghost predicate NoRepeats(s: seq<nat>) {
    forall i, j :: 0 <= i < j < |s| ==> s[i] != s[j]
  }

  /** The list holds, once each, the channels registered under exactly `key`. */
  ghost predicate Lists(s: seq<nat>, m: Registry, key: Key) {
    NoRepeats(s) && forall ch {:trigger ch in s} :: ch in s <==> ch in m && m[ch] == key
  }

  ghost predicate IsWithout(rest: seq<nat>, s: seq<nat>, ch: nat) {
    NoRepeats(rest) && forall c {:trigger c in rest} :: c in rest <==> c in s && c != ch
  }

  function SwapRemove(s: seq<nat>, i: nat): seq<nat>
    requires i < |s|
  {
    s[i := s[|s| - 1]][..|s| - 1]
  }

  lemma SwapRemoveRemoves(s: seq<nat>, i: nat)
    requires i < |s| && NoRepeats(s)
    ensures IsWithout(SwapRemove(s, i), s, s[i])
  {
    var n, r := |s| - 1, SwapRemove(s, i);
    forall ch | ch in s && ch != s[i] ensures ch in r {
      var j :| 0 <= j < |s| && s[j] == ch;
      if j == n {
        assert r[i] == ch;
      } else {
        assert r[j] == ch;
      }
    }
  }

  method RemoveChannel(s: seq<nat>, ch: nat) returns (r: seq<nat>, removed: bool)
    requires NoRepeats(s)
    ensures removed <==> ch in s
    ensures IsWithout(r, s, ch)
    ensures !removed ==> r == s
  {
    var i := 0;
    while i < |s|
      invariant 0 <= i <= |s| && ch !in s[..i]
    {
      if s[i] == ch {
        SwapRemoveRemoves(s, i);
        return SwapRemove(s, i), true;
      }
      i := i + 1;
    }
    return s, false;
  }

  // ----- Agreement of the index with the registry -----

  /** What the trie stores at every path. */
  type Cells = c: imap<Key, Cell> | forall k: Key :: k in c ghost witness imap k: Key :: Blank(k)

  function Blank(k: Key): Cell {
    Cell([], {})
  }

  function Lookup(exact: map<Key, seq<nat>>, key: Key): seq<nat> {
    if key in exact then exact[key] else []
  }

  ghost predicate ExactAgrees(exact: map<Key, seq<nat>>, watching: Registry) {
    && (forall k {:trigger Lookup(exact, k)} :: Lists(Lookup(exact, k), watching, k))
    && (forall k :: k in exact ==> exact[k] != [])
  }

  /** The channels watching some key that extends `prefix`, which is not empty. */
  ghost predicate WatchersBelow(ws: set<nat>, watching: Registry, prefix: Key) {
    forall ch {:trigger ch in ws} :: ch in ws <==> prefix != [] && ch in watching && prefix <= watching[ch]
  }

  ghost predicate CellAgrees(cell: Cell, watching: Registry, subscribed: Registry, k: Key) {
    Lists(cell.subs, subscribed, k) && WatchersBelow(cell.watchers, watching, k)
  }

  ghost predicate CellsAgree(cells: Cells, watching: Registry, subscribed: Registry) {
    forall k {:trigger cells[k]} :: CellAgrees(cells[k], watching, subscribed, k)
  }

  /** The nodes on the way to `key`, root excluded, down to depth `n`. */
  predicate OnPath(k: Key, key: Key, n: nat) {
    k != [] && k <= key && |k| <= n
  }

  function Marking(cell: Cell, ch: nat): Cell {
    cell.(watchers := cell.watchers + {ch})
  }

  function Unmarking(cell: Cell, ch: nat): Cell {
    cell.(watchers := cell.watchers - {ch})
  }

  ghost function Marked(cells: Cells, key: Key, ch: nat, n: nat): Cells
  {
    imap k: Key :: if OnPath(k, key, n) then Marking(cells[k], ch) else cells[k]
  }

  ghost function Unmarked(cells: Cells, key: Key, ch: nat, n: nat): Cells
  {
    imap k: Key :: if OnPath(k, key, n) then Unmarking(cells[k], ch) else cells[k]
  }

  lemma ListsMore(s: seq<nat>, m: Registry, key: Key, ch: nat, other: Key)
    requires Lists(s, m, other) && ch !in m
    ensures Lists(if other == key then s + [ch] else s, m[ch := key], other)
  {
    assert ch !in s;
    forall c ensures c in s + [ch] <==> c in s || c == ch {
    }
  }

  lemma ListsLess(s: seq<nat>, m: Registry, ch: nat, other: Key)
    requires Lists(s, m, other) && ch in m && m[ch] != other
    ensures Lists(s, m - {ch}, other)
  {
  }

  lemma WatchingExact(exact: map<Key, seq<nat>>, watching: Registry, ch: nat, key: Key)
    requires ExactAgrees(exact, watching) && ch !in watching
    ensures ExactAgrees(exact[key := Lookup(exact, key) + [ch]], watching[ch := key])
  {
    var more := exact[key := Lookup(exact, key) + [ch]];
    forall k ensures Lists(Lookup(more, k), watching[ch := key], k) {
      ListsMore(Lookup(exact, k), watching, key, ch, k);
    }
  }

  lemma WatchingCells(cells: Cells, watching: Registry, subscribed: Registry, ch: nat, key: Key)
    requires CellsAgree(cells, watching, subscribed) && ch !in watching
    ensures CellsAgree(Marked(cells, key, ch, |key|), watching[ch := key], subscribed)
  {
    var marked := Marked(cells, key, ch, |key|);
    forall k ensures CellAgrees(marked[k], watching[ch := key], subscribed, k) {
      assert CellAgrees(cells[k], watching, subscribed, k);
      assert ch !in cells[k].watchers;
    }
  }

  /** The lists of watchers once `rest` remains of one key's; an empty list is deleted. */
  function Shortened(exact: map<Key, seq<nat>>, key: Key, rest: seq<nat>): map<Key, seq<nat>> {
    if rest == [] then exact - {key} else exact[key := rest]
  }

  lemma ListsRest(s: seq<nat>, rest: seq<nat>, m: Registry, ch: nat, key: Key)
    requires Lists(s, m, key) && IsWithout(rest, s, ch)
    ensures Lists(rest, m - {ch}, key)
  {
    forall c ensures c in rest <==> c in m - {ch} && (m - {ch})[c] == key {
      assert c in s <==> c in m && m[c] == key;
    }
  }

  lemma UnwatchingExact(exact: map<Key, seq<nat>>, watching: Registry, ch: nat, rest: seq<nat>)
    requires ExactAgrees(exact, watching) && ch in watching
    requires IsWithout(rest, Lookup(exact, watching[ch]), ch)
    ensures ExactAgrees(Shortened(exact, watching[ch], rest), watching - {ch})
  {
    var key := watching[ch];
    var less := Shortened(exact, key, rest);
    forall k ensures Lists(Lookup(less, k), watching - {ch}, k) {
      if k == key {
        ListsRest(Lookup(exact, k), rest, watching, ch, k);
      } else {
        ListsLess(Lookup(exact, k), watching, ch, k);
      }
    }
  }

  lemma UnwatchingCells(cells: Cells, watching: Registry, subscribed: Registry, ch: nat)
    requires CellsAgree(cells, watching, subscribed) && ch in watching
    ensures CellsAgree(Unmarked(cells, watching[ch], ch, |watching[ch]|), watching - {ch}, subscribed)
  {
    var unmarked := Unmarked(cells, watching[ch], ch, |watching[ch]|);
    forall k ensures CellAgrees(unmarked[k], watching - {ch}, subscribed, k) {
      assert CellAgrees(cells[k], watching, subscribed, k);
      assert ch in cells[k].watchers <==> k != [] && k <= watching[ch];
    }
  }

  lemma Subscribing(cells: Cells, watching: Registry, subscribed: Registry, ch: nat, prefix: Key)
    requires CellsAgree(cells, watching, subscribed) && ch !in subscribed
    ensures var cell := cells[prefix];
            CellsAgree(cells[prefix := cell.(subs := cell.subs + [ch])], watching, subscribed[ch := prefix])
  {
    var more := cells[prefix := cells[prefix].(subs := cells[prefix].subs + [ch])];
    forall k ensures k in more && CellAgrees(more[k], watching, subscribed[ch := prefix], k) {
      ListsMore(cells[k].subs, subscribed, prefix, ch, k);
    }
  }

  lemma Unsubscribing(cells: Cells, watching: Registry, subscribed: Registry, ch: nat, rest: seq<nat>)
    requires CellsAgree(cells, watching, subscribed) && ch in subscribed
    requires IsWithout(rest, cells[subscribed[ch]].subs, ch)
    ensures var prefix := subscribed[ch];
            CellsAgree(cells[prefix := cells[prefix].(subs := rest)], watching, subscribed - {ch})
  {
    var prefix := subscribed[ch];
    var less := cells[prefix := cells[prefix].(subs := rest)];
    forall k ensures CellAgrees(less[k], watching, subscribed - {ch}, k) {
      assert CellAgrees(cells[k], watching, subscribed, k);
      if k == prefix {
        ListsRest(cells[k].subs, rest, subscribed, ch, k);
      } else {
        ListsLess(cells[k].subs, subscribed, ch, k);
      }
    }
  }

  // ----- Walking the trie while publishing -----

  /** The subscribers to non-empty prefixes of `key` of at most `n` runes, and the watchers of `key`. */
  ghost predicate FoundUpTo(found: set<nat>, watching: Registry, subscribed: Registry, key: Key, n: nat) {
    forall ch :: ch in found <==>
      (ch in watching && watching[ch] == key) || (ch in subscribed && OnPath(subscribed[ch], key, n))
  }

  lemma FoundNext(found: set<nat>, watching: Registry, subscribed: Registry, key: Key, i: nat, subs: seq<nat>)
    requires i < |key| && FoundUpTo(found, watching, subscribed, key, i) && Lists(subs, subscribed, key[..i + 1])
    ensures FoundUpTo(found + (set ch | ch in subs), watching, subscribed, key, i + 1)
  {
    forall ch | ch in subscribed
      ensures subscribed[ch] == key[..i + 1] <==> OnPath(subscribed[ch], key, i + 1) && !OnPath(subscribed[ch], key, i)
    {
    }
  }

  lemma FoundAll(found: set<nat>, watching: Registry, subscribed: Registry, key: Key)
    requires FoundUpTo(found, watching, subscribed, key, |key|)
    ensures found == PublishTargets(watching, subscribed, key)
  {
    forall ch ensures ch in found <==> ch in PublishTargets(watching, subscribed, key) {
    }
  }

  lemma OnPathNext(k: Key, key: Key, i: nat)
    requires i < |key|
    ensures OnPath(k, key, i + 1) <==> OnPath(k, key, i) || k == key[..i + 1]
  {
  }

  lemma MarkedNext(start: Cells, key: Key, ch: nat, i: nat)
    requires i < |key|
    ensures var m := Marked(start, key, ch, i);
            Marked(start, key, ch, i + 1) == m[key[..i + 1] := Marking(m[key[..i + 1]], ch)]
  {
    forall k: Key ensures OnPath(k, key, i + 1) <==> OnPath(k, key, i) || k == key[..i + 1] {
      OnPathNext(k, key, i);
    }
  }

  lemma UnmarkedNext(start: Cells, key: Key, ch: nat, i: nat)
    requires i < |key|
    ensures var m := Unmarked(start, key, ch, i);
            Unmarked(start, key, ch, i + 1) == m[key[..i + 1] := Unmarking(m[key[..i + 1]], ch)]
  {
    forall k: Key ensures OnPath(k, key, i + 1) <==> OnPath(k, key, i) || k == key[..i + 1] {
      OnPathNext(k, key, i);
    }
  }

  /** The trie, with a ghost table of what it stores. */
  class PrefixTree {
    var root: Node<char, Cell>
    ghost var index: map<Key, Node<char, Cell>>
    ghost var cells: Cells

    ghost predicate Valid()
      reads this, index.Values
    {
      Indexed(root, index) && Stores(index, cells, EMPTY)
    }

    constructor ()
      ensures Valid() && fresh(index.Values) && cells == imap k: Key :: Blank(k)
    {
      var node := new Node<char, Cell>(EMPTY);
      root := node;
      index := map[[] := node];
      cells := imap k: Key :: Blank(k);
      new;
      assert HasParent(index, []);
    }

    method ChildOf(node: Node<char, Cell>, ghost path: Key, r: char) returns (child: Node<char, Cell>)
      requires Valid() && path in index && index[path] == node
      modifies this`index, node`children
      ensures Valid() && fresh(index.Values - old(index.Values))
      ensures path + [r] in index && child == index[path + [r]]
    {
      ghost var grown;
      child, grown := Descend(root, node, r, EMPTY, path, index, cells);
      index := grown;
    }

    method Put(node: Node<char, Cell>, ghost path: Key, cell: Cell)
      requires Valid() && path in index && index[path] == node
      modifies this`cells, node`value
      ensures Valid() && cells == old(cells)[path := cell]
    {
      Write(root, node, cell, EMPTY, path, index, cells);
      cells := cells[path := cell];
    }

    method MarkChild(node: Node<char, Cell>, ghost path: Key, r: char, ch: nat) returns (child: Node<char, Cell>)
      requires Valid() && path in index && index[path] == node
      modifies this`index, this`cells, index.Values
      ensures Valid() && fresh(index.Values - old(index.Values))
      ensures path + [r] in index && child == index[path + [r]]
      ensures cells == old(cells)[path + [r] := Marking(old(cells)[path + [r]], ch)]
    {
      child := ChildOf(node, path, r);
      assert child.value == cells[path + [r]];
      Put(child, path + [r], Marking(child.value, ch));
    }

    /** Adds the channel to the watchers of every node on the way, creating nodes that are missing. */
    method Mark(key: Key, ch: nat)
      requires Valid()
      modifies this`index, this`cells, index.Values
      ensures Valid() && fresh(index.Values - old(index.Values))
      ensures cells == Marked(old(cells), key, ch, |key|)
    {
      var node, i := root, 0;
      assert cells == Marked(old(cells), key, ch, 0);
      while i < |key|
        invariant 0 <= i <= |key|
        invariant Valid() && fresh(index.Values - old(index.Values))
        invariant key[..i] in index && node == index[key[..i]]
        invariant cells == Marked(old(cells), key, ch, i)
      {
        MarkedNext(old(cells), key, ch, i);
        NextPrefix(key, i);
        node := MarkChild(node, key[..i], key[i], ch);
        i := i + 1;
      }
    }

    /** Removes the channel from the watchers of every node on the way. */
    method Unmark(key: Key, ch: nat)
      requires Valid()
      modifies this`cells, index.Values`value
      ensures Valid() && cells == Unmarked(old(cells), key, ch, |key|)
    {
      var node, i := root, 0;
      assert cells == Unmarked(old(cells), key, ch, 0);
      while i < |key|
        invariant 0 <= i <= |key|
        invariant Valid() && key[..i] in index && node == index[key[..i]]
        invariant cells == Unmarked(old(cells), key, ch, i)
      {
        ChildIndexed(root, index, key[..i], key[i]);
        NextPrefix(key, i);
        if key[i] !in node.children {
          NothingBelow(old(cells), key, ch, i);
          return;
        }
        UnmarkedNext(old(cells), key, ch, i);
        node := node.children[key[i]];
        assert node.value == cells[key[..i + 1]];
        Put(node, key[..i + 1], Unmarking(node.value, ch));
        i := i + 1;
      }
    }

    /** Where the walk leaves the trie there are no watchers to remove from. */
    lemma NothingBelow(start: Cells, key: Key, ch: nat, i: nat)
      requires Valid() && i < |key| && key[..i + 1] !in index
      requires cells == Unmarked(start, key, ch, i)
      ensures cells == Unmarked(start, key, ch, |key|)
    {
      forall k: Key | OnPath(k, key, |key|) && !OnPath(k, key, i)
        ensures Unmarking(start[k], ch) == start[k]
      {
        assert k[..i + 1] == key[..i + 1];
        if k in index {
          PrefixIndexed(root, index, k, i + 1);
          assert false;
        }
        assert cells[k] == EMPTY;
      }
    }

    /** Appends a subscriber at the node of `prefix`. */
    method AppendSub(prefix: Key, ch: nat)
      requires Valid()
      modifies this`index, this`cells, index.Values
      ensures Valid() && fresh(index.Values - old(index.Values))
      ensures cells == old(cells)[prefix := old(cells)[prefix].(subs := old(cells)[prefix].subs + [ch])]
    {
      var node, grown := Ensure(root, prefix, EMPTY, index, cells);
      index := grown;
      assert node.value == cells[prefix];
      Put(node, prefix, node.value.(subs := node.value.subs + [ch]));
    }
  }

  /** Channel numbers are never reused, and a channel either watches or subscribes. */
  ghost predicate Numbered(watching: Registry, subscribed: Registry, next: nat) {
    && (forall ch :: ch in watching ==> ch < next && ch !in subscribed)
    && (forall ch :: ch in subscribed ==> ch < next)
  }

  ghost predicate Agrees(exact: map<Key, seq<nat>>, cells: Cells, watching: Registry, subscribed: Registry, next: nat) {
    && ExactAgrees(exact, watching)
    && CellsAgree(cells, watching, subscribed)
    && Numbered(watching, subscribed, next)
  }

  lemma WatchAgrees(exact: map<Key, seq<nat>>, cells: Cells, watching: Registry, subscribed: Registry, next: nat,
                    key: Key)
    requires Agrees(exact, cells, watching, subscribed, next)
    ensures next !in watching && next !in subscribed
    ensures Agrees(exact[key := Lookup(exact, key) + [next]], Marked(cells, key, next, |key|), watching[next := key],
                   subscribed, next + 1)
  {
    WatchingExact(exact, watching, next, key);
    WatchingCells(cells, watching, subscribed, next, key);
  }

  lemma UnwatchAgrees(exact: map<Key, seq<nat>>, cells: Cells, watching: Registry, subscribed: Registry, next: nat,
                      ch: nat, rest: seq<nat>)
    requires Agrees(exact, cells, watching, subscribed, next) && ch in watching
    requires IsWithout(rest, Lookup(exact, watching[ch]), ch)
    ensures Agrees(Shortened(exact, watching[ch], rest), Unmarked(cells, watching[ch], ch, |watching[ch]|),
                   watching - {ch}, subscribed, next)
  {
    UnwatchingExact(exact, watching, ch, rest);
    UnwatchingCells(cells, watching, subscribed, ch);
  }

  lemma PrefixFound(cell: Cell, watching: Registry, subscribed: Registry, prefix: Key)
    requires CellAgrees(cell, watching, subscribed, prefix)
    ensures cell.watchers + (set ch | ch in cell.subs) == PrefixTargets(watching, subscribed, prefix)
  {
    forall ch ensures ch in cell.watchers || ch in cell.subs <==> ch in PrefixTargets(watching, subscribed, prefix) {
    }
  }

  class InMemoryWatchBus {
    var exact: map<Key, seq<nat>>
    const tree: PrefixTree
    var nextChannel: nat
    ghost var watching: Registry
    ghost var subscribed: Registry

    ghost predicate Valid()
      reads this, tree, tree.index.Values
    {
      tree.Valid() && Agrees(exact, tree.cells, watching, subscribed, nextChannel)
    }

    constructor ()
      ensures Valid() && watching == map[] && subscribed == map[] && fresh(tree) && fresh(tree.index.Values)
    {
      exact, nextChannel := map[], 0;
      tree := new PrefixTree();
      watching, subscribed := map[], map[];
    }

    /** The targets of `Publish`: the watchers of the key and the subscribers found on the walk. */
    method Publish(key: Key) returns (targets: set<nat>)
      requires Valid()
      ensures targets == PublishTargets(watching, subscribed, key)
    {
      targets := set ch | ch in Lookup(exact, key);
      assert Lists(Lookup(exact, key), watching, key);
      var node, i := tree.root, 0;
      while i < |key|
        invariant 0 <= i <= |key|
        invariant key[..i] in tree.index && node == tree.index[key[..i]]
        invariant FoundUpTo(targets, watching, subscribed, key, i)
      {
        NextPrefix(key, i);
        ChildIndexed(tree.root, tree.index, key[..i], key[i]);
        if key[i] !in node.children {
          DeadEnd(key, i, targets);
          return;
        }
        node := node.children[key[i]];
        assert node.value == tree.cells[key[..i + 1]];
        FoundNext(targets, watching, subscribed, key, i, node.value.subs);
        targets := targets + set ch | ch in node.value.subs;
        i := i + 1;
      }
      FoundAll(targets, watching, subscribed, key);
    }

    lemma DeadEnd(key: Key, i: nat, found: set<nat>)
      requires Valid() && i < |key| && key[..i + 1] !in tree.index && FoundUpTo(found, watching, subscribed, key, i)
      ensures found == PublishTargets(watching, subscribed, key)
    {
      forall ch | ch in subscribed
        ensures OnPath(subscribed[ch], key, |key|) <==> OnPath(subscribed[ch], key, i)
      {
        var p := subscribed[ch];
        assert ch in tree.cells[p].subs;
        if OnPath(p, key, |key|) && |p| > i {
          assert key[..i + 1] == p[..i + 1];
          PrefixIndexed(tree.root, tree.index, p, i + 1);
          assert false;
        }
      }
      FoundAll(found, watching, subscribed, key);
    }

    /** The targets of `PublishPrefix`: what the node at the prefix has collected. */
    method PublishPrefix(prefix: Key) returns (targets: set<nat>)
      requires Valid()
      ensures targets == PrefixTargets(watching, subscribed, prefix)
    {
      targets := {};
      PrefixFound(tree.cells[prefix], watching, subscribed, prefix);
      var node := Find(tree.root, prefix, tree.index);
      if node != null {
        targets := node.value.watchers + set ch | ch in node.value.subs;
      }
    }

    /** A fresh channel watches `key`. */
    method Watch(key: Key) returns (ch: nat)
      requires Valid()
      modifies this, tree, tree.index.Values
      ensures Valid() && fresh(tree.index.Values - old(tree.index.Values))
      ensures ch !in old(watching) && ch !in old(subscribed)
      ensures watching == old(watching)[ch := key] && subscribed == old(subscribed)
    {
      ch := Enroll(key);
      tree.Mark(key, ch);
    }

    method Enroll(key: Key) returns (ch: nat)
      requires Agrees(exact, tree.cells, watching, subscribed, nextChannel)
      modifies this`exact, this`watching, this`nextChannel
      ensures Agrees(exact, Marked(tree.cells, key, ch, |key|), watching, subscribed, nextChannel)
      ensures ch !in old(watching) && ch !in old(subscribed) && watching == old(watching)[ch := key]
    {
      ch := nextChannel;
      WatchAgrees(exact, tree.cells, watching, subscribed, nextChannel, key);
      exact := exact[key := Lookup(exact, key) + [ch]];
      watching := watching[ch := key];
      nextChannel := nextChannel + 1;
    }

    /** A fresh channel subscribes to `prefix`. */
    method SubscribePrefix(prefix: Key) returns (ch: nat)
      requires Valid()
      modifies this, tree, tree.index.Values
      ensures Valid() && fresh(tree.index.Values - old(tree.index.Values))
      ensures ch !in old(watching) && ch !in old(subscribed)
      ensures subscribed == old(subscribed)[ch := prefix] && watching == old(watching)
    {
      ch := nextChannel;
      Subscribing(tree.cells, watching, subscribed, ch, prefix);
      subscribed := subscribed[ch := prefix];
      nextChannel := nextChannel + 1;
      tree.AppendSub(prefix, ch);
    }

    /** Removes a channel from the key it watches, else from the prefix it subscribed to. */
    method Unwatch(key: Key, ch: nat)
      requires Valid()
      modifies this, tree`cells, tree.index.Values`value
      ensures Valid()
      ensures watching ==
                if ch in old(watching) && old(watching)[ch] == key then old(watching) - {ch} else old(watching)
      ensures subscribed ==
                if ch in old(subscribed) && old(subscribed)[ch] == key then old(subscribed) - {ch} else old(subscribed)
    {
      assert ch in Lookup(exact, key) <==> ch in watching && watching[ch] == key;
      var rest, removed := RemoveChannel(Lookup(exact, key), ch);
      if removed {
        StopWatching(key, ch, rest);
      } else {
        Unsubscribe(key, ch);
      }
    }

    method StopWatching(key: Key, ch: nat, rest: seq<nat>)
      requires Valid() && ch in watching && watching[ch] == key && IsWithout(rest, Lookup(exact, key), ch)
      modifies this`exact, this`watching, tree`cells, tree.index.Values`value
      ensures Valid() && watching == old(watching) - {ch}
    {
      UnwatchAgrees(exact, tree.cells, watching, subscribed, nextChannel, ch, rest);
      exact := Shortened(exact, key, rest);
      watching := watching - {ch};
      tree.Unmark(key, ch);
    }

    method Unsubscribe(key: Key, ch: nat)
      requires Valid()
      modifies this`subscribed, tree`cells, tree.index.Values`value
      ensures Valid()
      ensures subscribed ==
                if ch in old(subscribed) && old(subscribed)[ch] == key then old(subscribed) - {ch} else old(subscribed)
    {
      assert ch in tree.cells[key].subs <==> ch in subscribed && subscribed[ch] == key;
      var node := Find(tree.root, key, tree.index);
      if node != null {
        var rest, removed := RemoveChannel(node.value.subs, ch);
        if removed {
          Unsubscribing(tree.cells, watching, subscribed, ch, rest);
          subscribed := subscribed - {ch};
          tree.Put(node, key, node.value.(subs := rest));
        }
      }
    }
  }
}
