/**
  The routing index of the bus: a map of exact-topic subscribers and a byte trie of prefix subscribers.
  Subscriptions appear under their ids.  The index is specified by the plain registry of live
  subscriptions, scanned with `Matches`.
*/
module Routing {
  import opened Frames
  import opened Tries

  type Registry = map<nat, SubscribeOptions>

  /** Which frames a subscription wants: its topic, or any topic that extends it. */
  predicate Matches(options: SubscribeOptions, topic: Topic) {
    if options.prefix then options.topic <= topic else options.topic == topic
  }

  /** The reference: a scan of every registered subscription. */
  function Scan(registered: Registry, topic: Topic): set<nat> {
    set id | id in registered && Matches(registered[id], topic)
  }

  /** The subscriptions registered under exactly `topic`, with the given kind. */
  ghost predicate EntriesOf(ids: set<nat>, registered: Registry, topic: Topic, prefix: bool) {
    forall id :: id in ids <==> id in registered && registered[id].prefix == prefix && registered[id].topic == topic
  }

  /** The scan, restricted to prefixes of at most `n` bytes. */
  ghost predicate FoundUpTo(found: set<nat>, registered: Registry, topic: Topic, n: nat) {
    forall id :: id in found <==>
      id in registered && Matches(registered[id], topic) && (registered[id].prefix ==> |registered[id].topic| <= n)
  }

  /** Prefix subscriptions by topic; a topic without a trie node has none. */
  type Table = imap<Topic, set<nat>>

  function Lookup(exact: map<Topic, set<nat>>, topic: Topic): set<nat> {
    if topic in exact then exact[topic] else {}
  }

  ghost predicate ExactAgrees(exact: map<Topic, set<nat>>, registered: Registry) {
    && (forall t :: EntriesOf(Lookup(exact, t), registered, t, false))
    && (forall t :: t in exact ==> exact[t] != {})
  }

  ghost predicate PrefixesAgree(prefixes: Table, registered: Registry) {
    forall t :: t in prefixes && EntriesOf(prefixes[t], registered, t, true)
  }

  /** The index says what the registry says. */
  ghost predicate Consistent(exact: map<Topic, set<nat>>, prefixes: Table, registered: Registry) {
    && ExactAgrees(exact, registered)
    && PrefixesAgree(prefixes, registered)
    && (forall id :: id in registered ==> registered[id].topic != [])
  }

  lemma RegisteringPrefix(exact: map<Topic, set<nat>>, prefixes: Table, registered: Registry, id: nat,
                          o: SubscribeOptions)
    requires Consistent(exact, prefixes, registered) && id !in registered && o.prefix && o.topic != []
    ensures Consistent(exact, prefixes[o.topic := prefixes[o.topic] + {id}], registered[id := o])
  {
    assert forall t :: EntriesOf(Lookup(exact, t), registered, t, false);
  }

  lemma RegisteringExact(exact: map<Topic, set<nat>>, prefixes: Table, registered: Registry, id: nat,
                         o: SubscribeOptions)
    requires Consistent(exact, prefixes, registered) && id !in registered && !o.prefix && o.topic != []
    ensures Consistent(exact[o.topic := Lookup(exact, o.topic) + {id}], prefixes, registered[id := o])
  {
    var grown := exact[o.topic := Lookup(exact, o.topic) + {id}];
    assert forall t :: t != o.topic ==> Lookup(grown, t) == Lookup(exact, t);
    assert forall t :: EntriesOf(Lookup(exact, t), registered, t, false);
  }

  function Delete(exact: map<Topic, set<nat>>, topic: Topic, id: nat): map<Topic, set<nat>> {
    var rest := Lookup(exact, topic) - {id};
    if rest == {} then exact - {topic} else exact[topic := rest]
  }

  lemma UnregisteringPrefix(exact: map<Topic, set<nat>>, prefixes: Table, registered: Registry, id: nat,
                            o: SubscribeOptions)
    requires Consistent(exact, prefixes, registered) && o.prefix && (id in registered ==> registered[id] == o)
    ensures Consistent(exact, prefixes[o.topic := prefixes[o.topic] - {id}], registered - {id})
  {
    assert forall t :: EntriesOf(Lookup(exact, t), registered, t, false);
  }

  lemma UnregisteringExact(exact: map<Topic, set<nat>>, prefixes: Table, registered: Registry, id: nat,
                           o: SubscribeOptions)
    requires Consistent(exact, prefixes, registered) && !o.prefix && (id in registered ==> registered[id] == o)
    ensures Consistent(Delete(exact, o.topic, id), prefixes, registered - {id})
  {
    var rest := Delete(exact, o.topic, id);
    assert forall t :: t != o.topic ==> Lookup(rest, t) == Lookup(exact, t);
    assert Lookup(rest, o.topic) == Lookup(exact, o.topic) - {id};
    assert forall t :: EntriesOf(Lookup(exact, t), registered, t, false);
  }

  /** Adds a subscription to what the trie stores at its topic. */
  method AddAt(root: Node<Byte, set<nat>>, topic: Topic, id: nat, ghost index: map<Topic, Node<Byte, set<nat>>>,
               ghost table: Table)
    returns (ghost grown: map<Topic, Node<Byte, set<nat>>>)
    requires Indexed(root, index) && Stores(index, table, {})
    modifies index.Values
    ensures Indexed(root, grown) && Stores(grown, table[topic := table[topic] + {id}], {})
    ensures fresh(grown.Values - index.Values)
  {
    var node;
    node, grown := Ensure(root, topic, {}, index, table);
    assert node.value == table[topic];
    Write(root, node, node.value + {id}, {}, topic, grown, table);
  }

  /** Removes a subscription from what the trie stores at its topic; nodes stay. */
  method RemoveAt(root: Node<Byte, set<nat>>, topic: Topic, id: nat, ghost index: map<Topic, Node<Byte, set<nat>>>,
                  ghost table: Table)
    requires Indexed(root, index) && Stores(index, table, {})
    modifies index.Values`value
    ensures Stores(index, table[topic := table[topic] - {id}], {})
  {
    var node := Find(root, topic, index);
    if node != null {
      assert node.value == table[topic];
      Write(root, node, node.value - {id}, {}, topic, index, table);
    } else {
      assert table[topic] - {id} == table[topic];
    }
  }

  class Router {
    var exact: map<Topic, set<nat>>
    var prefix: Node<Byte, set<nat>>
    ghost var index: map<Topic, Node<Byte, set<nat>>>
    ghost var registered: Registry

    /** What the trie stores, path by path. */
    ghost function Prefixes(): Table
      reads this`index, index.Values`value
    {
      imap t: Topic :: if t in index then index[t].value else {}
    }

    ghost predicate Valid()
      reads this, index.Values
    {
      Indexed(prefix, index) && Consistent(exact, Prefixes(), registered)
    }

    constructor ()
      ensures Valid() && registered == map[]
      ensures fresh(index.Values)
    {
      exact := map[];
      var root := new Node<Byte, set<nat>>({});
      prefix := root;
      index := map[[] := root];
      registered := map[];
      new;
      assert HasParent(index, []);
    }

    /** The subscribers of a topic, by lookup and trie walk, are those a scan of the registry finds. */
    method Targets(topic: Topic) returns (targets: set<nat>)
      requires Valid()
      ensures targets == Scan(registered, topic)
      ensures forall id :: id in targets <==>
                id in registered &&
                (registered[id].topic == topic || (registered[id].prefix && registered[id].topic <= topic))
    {
      targets := Lookup(exact, topic);
      var node := prefix;
      var i := 0;
      while i < |topic|
        invariant 0 <= i <= |topic|
        invariant topic[..i] in index && node == index[topic[..i]]
        invariant FoundUpTo(targets, registered, topic, i)
      {
        NextPrefix(topic, i);
        ChildIndexed(prefix, index, topic[..i], topic[i]);
        if topic[i] !in node.children {
          DeadEnd(topic, i, targets);
          return;
        }
        node := node.children[topic[i]];
        assert node.value == Prefixes()[topic[..i + 1]];
        FoundNext(registered, topic, i, targets, node.value);
        targets := targets + node.value;
        i := i + 1;
      }
    }

    /** Where the walk stops, no longer prefix is registered. */
    lemma DeadEnd(topic: Topic, i: nat, found: set<nat>)
      requires Valid() && i < |topic| && topic[..i + 1] !in index && FoundUpTo(found, registered, topic, i)
      ensures found == Scan(registered, topic)
    {
      forall id | id in registered && registered[id].prefix && registered[id].topic <= topic
        ensures |registered[id].topic| <= i
      {
        var p := registered[id].topic;
        assert id in Prefixes()[p];
        if |p| > i {
          assert topic[..i + 1] == p[..i + 1];
          PrefixIndexed(prefix, index, p, i + 1);
          assert false;
        }
      }
    }

    method Add(id: nat, options: SubscribeOptions)
      requires Valid() && id !in registered && options.topic != []
      modifies this, index.Values
      ensures Valid()
      ensures registered == old(registered)[id := options]
      ensures fresh(index.Values - old(index.Values))
    {
      if options.prefix {
        AddPrefix(id, options);
      } else {
        AddExact(id, options);
      }
    }

    method AddExact(id: nat, options: SubscribeOptions)
      requires Valid() && id !in registered && options.topic != [] && !options.prefix
      modifies this`exact, this`registered
      ensures Valid() && registered == old(registered)[id := options]
    {
      RegisteringExact(exact, Prefixes(), registered, id, options);
      exact := exact[options.topic := Lookup(exact, options.topic) + {id}];
      registered := registered[id := options];
    }

    method AddPrefix(id: nat, options: SubscribeOptions)
      requires Valid() && id !in registered && options.topic != [] && options.prefix
      modifies this`index, this`registered, index.Values
      ensures Valid() && registered == old(registered)[id := options]
      ensures fresh(index.Values - old(index.Values))
    {
      RegisteringPrefix(exact, Prefixes(), registered, id, options);
      Grow(id, options.topic);
      registered := registered[id := options];
    }

    method Grow(id: nat, topic: Topic)
      requires Indexed(prefix, index)
      modifies this`index, index.Values
      ensures Indexed(prefix, index) && fresh(index.Values - old(index.Values))
      ensures Prefixes() == old(Prefixes())[topic := old(Prefixes())[topic] + {id}]
    {
      ghost var table := Prefixes();
      ghost var grown := AddAt(prefix, topic, id, index, table);
      index := grown;
      StoresUnique(index, Prefixes(), table[topic := table[topic] + {id}], {});
    }

    /** Removing a subscription that is not registered changes nothing. */
    method Remove(id: nat, options: SubscribeOptions)
      requires Valid() && (id in registered ==> registered[id] == options)
      modifies this, index.Values
      ensures Valid()
      ensures registered == old(registered) - {id}
      ensures index == old(index)
    {
      if options.prefix {
        RemovePrefix(id, options);
      } else {
        RemoveExact(id, options);
      }
    }

    method RemoveExact(id: nat, options: SubscribeOptions)
      requires Valid() && (id in registered ==> registered[id] == options) && !options.prefix
      modifies this`exact, this`registered
      ensures Valid() && registered == old(registered) - {id}
    {
      UnregisteringExact(exact, Prefixes(), registered, id, options);
      exact := Delete(exact, options.topic, id);
      registered := registered - {id};
    }

    method RemovePrefix(id: nat, options: SubscribeOptions)
      requires Valid() && (id in registered ==> registered[id] == options) && options.prefix
      modifies this`registered, index.Values`value
      ensures Valid() && registered == old(registered) - {id}
    {
      ghost var table := Prefixes();
      UnregisteringPrefix(exact, table, registered, id, options);
      RemoveAt(prefix, options.topic, id, index, table);
      registered := registered - {id};
      StoresUnique(index, Prefixes(), table[options.topic := table[options.topic] - {id}], {});
    }

    /** Gathers every subscription and leaves the index empty. */
    method Close() returns (unique: set<nat>)
      requires Valid()
      modifies this
      ensures Valid() && registered == map[] && fresh(index.Values)
      ensures unique == old(registered).Keys
    {
      unique := CollectExact();
      unique := Collect(prefix, [], unique);
      forall id | id in registered
        ensures id in unique
      {
        if registered[id].prefix {
          assert id in Prefixes()[registered[id].topic];
          assert [] <= registered[id].topic;
        }
      }
      Reset();
    }

    method Reset()
      modifies this
      ensures Valid() && registered == map[] && fresh(index.Values)
    {
      exact := map[];
      var root := new Node<Byte, set<nat>>({});
      prefix := root;
      index := map[[] := root];
      registered := map[];
      assert HasParent(index, []);
    }

    method CollectExact() returns (all: set<nat>)
      requires Valid()
      ensures all <= registered.Keys
      ensures forall id :: id in registered && !registered[id].prefix ==> id in all
    {
      forall id | id in registered && !registered[id].prefix
        ensures registered[id].topic in exact
      {
        assert EntriesOf(Lookup(exact, registered[id].topic), registered, registered[id].topic, false);
      }
      all := {};
      var topics := exact.Keys;
      while topics != {}
        invariant topics <= exact.Keys
        invariant all <= registered.Keys
        invariant forall id :: id in registered && !registered[id].prefix && registered[id].topic !in topics ==>
                    id in all
        decreases topics
      {
        var t :| t in topics;
        assert EntriesOf(Lookup(exact, t), registered, t, false);
        all := all + exact[t];
        topics := topics - {t};
      }
    }

    /** Everything stored at or below `path` is in `all`. */
    ghost predicate Covered(path: Topic, all: set<nat>)
      reads this`index, index.Values`value
    {
      forall p :: p in index && path <= p ==> index[p].value <= all
    }

    lemma CoveredByChildren(path: Topic, all: set<nat>)
      requires Indexed(prefix, index) && path in index && index[path].value <= all
      requires ChildrenCovered(path, {}, all)
      ensures Covered(path, all)
    {
      forall p | p in index && path <= p
        ensures index[p].value <= all
      {
        if p != path {
          BelowAChild(path, p);
          assert Covered(path + [p[|path|]], all);
        }
      }
    }

    /** A longer path goes through one of the children. */
    lemma BelowAChild(path: Topic, p: Topic)
      requires Indexed(prefix, index) && path in index && p in index && path < p
      ensures p[|path|] in index[path].children && path + [p[|path|]] <= p
    {
      var next := path + [p[|path|]];
      assert p[..|path| + 1] == next;
      PrefixIndexed(prefix, index, p, |path| + 1);
      ChildIndexed(prefix, index, path, p[|path|]);
    }

    lemma BelowShrinks(path: Topic, k: Byte)
      requires path in index
      ensures Below(path + [k]) < Below(path)
    {
      assert path in Below(path) && path !in Below(path + [k]);
      assert forall p :: p in Below(path + [k]) ==> p in Below(path);
    }

    /** Adds the subscriptions stored at or below `node`. */
    method Collect(node: Node<Byte, set<nat>>, ghost path: Topic, dst: set<nat>) returns (all: set<nat>)
      requires Valid() && path in index && node == index[path] && dst <= registered.Keys
      ensures dst <= all <= registered.Keys
      ensures Covered(path, all)
      decreases Below(path), 1
    {
      assert node.value == Prefixes()[path];
      all := CollectChildren(node, path, dst + node.value);
      CoveredByChildren(path, all);
    }

    /** Adds the subscriptions stored below `node`. */
    method CollectChildren(node: Node<Byte, set<nat>>, ghost path: Topic, dst: set<nat>) returns (all: set<nat>)
      requires Valid() && path in index && node == index[path] && dst <= registered.Keys
      ensures dst <= all <= registered.Keys
      ensures ChildrenCovered(path, {}, all)
      decreases Below(path), 0
    {
      all := dst;
      var pending := node.children.Keys;
      while pending != {}
        invariant pending <= node.children.Keys && dst <= all <= registered.Keys
        invariant ChildrenCovered(path, pending, all)
        decreases pending
      {
        var k :| k in pending;
        BelowShrinks(path, k);
        var more := Collect(node.children[k], path + [k], all);
        OneMoreCovered(path, pending, all, k, more);
        all := more;
        pending := pending - {k};
      }
    }

    /** All children but the pending ones are covered. */
    ghost predicate ChildrenCovered(path: Topic, pending: set<Byte>, all: set<nat>)
      requires path in index
      reads this`index, index.Values
    {
      forall k :: k in index[path].children && k !in pending ==> Covered(path + [k], all)
    }

    lemma OneMoreCovered(path: Topic, pending: set<Byte>, all: set<nat>, k: Byte, more: set<nat>)
      requires path in index && ChildrenCovered(path, pending, all) && all <= more && Covered(path + [k], more)
      ensures ChildrenCovered(path, pending - {k}, more)
    {
      forall j | j in index[path].children && j !in pending - {k}
        ensures Covered(path + [j], more)
      {
        if j != k {
          assert Covered(path + [j], all);
        }
      }
    }

    /** The paths that extend `path`. */
    ghost function Below(path: Topic): set<Topic>
      reads this`index
    {
      set p | p in index && path <= p
    }
  }

  /** A node on the walk adds the prefix subscriptions of its own length. */
  lemma FoundNext(registered: Registry, topic: Topic, i: nat, found: set<nat>, entries: set<nat>)
    requires i < |topic| && FoundUpTo(found, registered, topic, i)
    requires EntriesOf(entries, registered, topic[..i + 1], true)
    ensures FoundUpTo(found + entries, registered, topic, i + 1)
  {
    forall id | id in registered && registered[id].prefix
      ensures registered[id].topic == topic[..i + 1] <==>
                registered[id].topic <= topic && |registered[id].topic| == i + 1
    {
    }
  }
}
