/** `KernelCache` of ops/built-in/kernel_cache.h: a list of entries and a map from keys to list
    iterators, here references to the list's nodes. */
module KernelCache {
  import opened Wrappers
  import opened CacheModel

  /** A list node.  Iterators stay valid until their node is erased. */
  class Node<V> {
    const key: Key
    var value: V

    constructor (key: Key, value: V)
      ensures this.key == key && this.value == value
    {
      this.key := key;
      this.value := value;
    }
  }

  function Erased<V>(list: seq<Node<V>>, node: Node<V>): seq<Node<V>> {
    if list == [] then []
    else if list[0] == node then list[1..]
    else [list[0]] + Erased(list[1..], node)
  }

  lemma {:induction false} ErasedAt<V>(list: seq<Node<V>>, node: Node<V>, i: nat)
    requires i < |list| && list[i] == node && forall j :: 0 <= j < i ==> list[j] != node
    ensures Erased(list, node) == list[..i] + list[i + 1..]
  {
    if 0 < i {
      ErasedAt(list[1..], node, i - 1);
      assert list[..i] + list[i + 1..] == [list[0]] + (list[1..][..i - 1] + list[1..][i..]);
    }
  }

  lemma DistinctRest<V>(items: seq<Entry<V>>)
    requires items != [] && Distinct(Keys(items))
    ensures Distinct(Keys(items[1..])) && forall i :: 0 <= i < |items| - 1 ==> items[1..][i].key != items[0].key
  {
    var rest := items[1..];
    forall a, b | 0 <= a < b < |rest| ensures Keys(rest)[a] != Keys(rest)[b] {
      assert Keys(items)[a + 1] != Keys(items)[b + 1];
    }
    forall i | 0 <= i < |rest| ensures rest[i].key != items[0].key {
      assert Keys(items)[0] != Keys(items)[i + 1];
    }
  }

  lemma {:induction false} WithoutAt<V>(items: seq<Entry<V>>, i: nat)
    requires i < |items| && Distinct(Keys(items))
    ensures Without(items, items[i].key) == items[..i] + items[i + 1..]
  {
    var rest, key := items[1..], items[i].key;
    DistinctRest(items);
    if i == 0 {
      WithoutAbsent(rest, key);
    } else {
      assert rest[i - 1].key == key;
      WithoutAt(rest, i - 1);
      assert items[..i] + items[i + 1..] == [items[0]] + (rest[..i - 1] + rest[i..]);
    }
  }

  lemma {:induction false} WithoutAbsent<V>(items: seq<Entry<V>>, key: Key)
    requires forall i :: 0 <= i < |items| ==> items[i].key != key
    ensures Without(items, key) == items
  {
    if items != [] { WithoutAbsent(items[1..], key); }
  }

  /** The keys of the list are distinct and the map sends exactly those keys to the nodes holding them. */
  ghost predicate Linked<V>(list: seq<Node<V>>, iter: map<Key, Node<V>>) {
    && (forall i, j :: 0 <= i < j < |list| ==> list[i].key != list[j].key)
    && (forall n :: n in list ==> n.key in iter && iter[n.key] == n)
    && (forall k :: k in iter ==> iter[k] in list && iter[k].key == k)
  }

  lemma LinkedErase<V>(list: seq<Node<V>>, iter: map<Key, Node<V>>, i: nat)
    requires Linked(list, iter) && i < |list|
    ensures Linked(list[..i] + list[i + 1..], iter - {list[i].key})
  {
    var rest := list[..i] + list[i + 1..];
    forall n | n in rest ensures n in list && n != list[i] && n.key != list[i].key {
      var j :| 0 <= j < |rest| && rest[j] == n;
      assert n == list[if j < i then j else j + 1];
    }
    forall n | n in list && n != list[i] ensures n in rest {
      var j :| 0 <= j < |list| && list[j] == n;
      assert n == rest[if j < i then j else j - 1];
    }
  }

  lemma LinkedPush<V>(list: seq<Node<V>>, iter: map<Key, Node<V>>, node: Node<V>)
    requires Linked(list, iter) && node.key !in iter
    ensures Linked([node] + list, iter[node.key := node])
  {
  }

  ghost function ItemsOf<V>(list: seq<Node<V>>): (items: seq<Entry<V>>)
    reads list
    ensures |items| == |list| && forall i :: 0 <= i < |list| ==> items[i] == Entry(list[i].key, list[i].value)
  {
    seq(|list|, i requires 0 <= i < |list| reads list => Entry(list[i].key, list[i].value))
  }

  lemma ItemsErased<V>(list: seq<Node<V>>, i: nat)
    requires i < |list| && forall a, b :: 0 <= a < b < |list| ==> list[a].key != list[b].key
    ensures ItemsOf(list[..i] + list[i + 1..]) == Without(ItemsOf(list), list[i].key)
  {
    var items := ItemsOf(list);
    assert forall a :: 0 <= a < |items| ==> Keys(items)[a] == list[a].key;
    WithoutAt(items, i);
    var rest := list[..i] + list[i + 1..];
    assert forall a :: 0 <= a < |rest| ==> ItemsOf(rest)[a] == (items[..i] + items[i + 1..])[a];
  }

  lemma EraseNode<V>(list: seq<Node<V>>, iter: map<Key, Node<V>>, node: Node<V>)
    requires Linked(list, iter) && node in list
    ensures Linked(Erased(list, node), iter - {node.key})
    ensures forall n :: n in Erased(list, node) ==> n in list
    ensures ItemsOf(Erased(list, node)) == Without(ItemsOf(list), node.key)
  {
    var i :| 0 <= i < |list| && list[i] == node;
    ErasedAt(list, node, i);
    LinkedErase(list, iter, i);
    ItemsErased(list, i);
  }

  class KernelCache<V> {
    var sessFlag: bool
    var capacity: nat
    var list: seq<Node<V>>
    var iter: map<Key, Node<V>>

    ghost predicate Valid()
      reads this
    {
      Linked(list, iter)
    }

    ghost function Nodes(): set<object>
      reads this
    {
      set n | n in list
    }

    ghost function Items(): seq<Entry<V>>
      reads this, list
    {
      ItemsOf(list)
    }

    ghost function Contents(): Cache<V>
      reads this, list
    {
      Cache(capacity, sessFlag, Items())
    }

    constructor ()
      ensures Valid() && Contents() == Cache(1, false, [])
    {
      sessFlag, capacity := false, 1;
      list, iter := [], map[];
    }

    /** `Init` of `CpuKernelCache`, whose `InitParameter` gives caches outside sessions 256 entries. */
    method Init(sessFlag: bool) returns (ret: int)
      requires Valid()
      modifies this
      ensures Valid() && ret == 0 && list == old(list)
      ensures Contents() == Cache(if sessFlag then old(capacity) else 256, sessFlag, old(Items()))
    {
      this.sessFlag := sessFlag;
      if !sessFlag {
        capacity := 256;
      }
      ret := 0;
    }

    method PushFront(key: Key, value: V)
      requires Valid() && key !in iter
      modifies this
      ensures Valid() && capacity == old(capacity) && sessFlag == old(sessFlag)
      ensures forall n :: n in list && n !in old(list) ==> fresh(n)
      ensures Items() == [Entry(key, value)] + old(Items())
    {
      var front := new Node(key, value);
      LinkedPush(list, iter, front);
      list := [front] + list;
      iter := iter[key := front];
    }

    /** Erase a node, and put a new one with its key and value at the front. */
    method MoveToFront(node: Node<V>)
      requires Valid() && node in list
      modifies this
      ensures Valid() && capacity == old(capacity) && sessFlag == old(sessFlag)
      ensures forall n :: n in list && n !in old(list) ==> fresh(n)
      ensures Items() == [Entry(node.key, node.value)] + Without(old(Items()), node.key)
    {
      EraseNode(list, iter, node);
      var key, value := node.key, node.value;
      list, iter := Erased(list, node), iter - {key};
      PushFront(key, value);
    }

    method PopBack()
      requires Valid() && 0 < |list|
      modifies this
      ensures Valid() && capacity == old(capacity) && sessFlag == old(sessFlag)
      ensures list == old(list)[..|old(list)| - 1] && iter == old(iter) - {old(list)[|old(list)| - 1].key}
    {
      LinkedErase(list, iter, |list| - 1);
      assert list[..|list| - 1] + list[|list|..] == list[..|list| - 1];
      var delKey := list[|list| - 1].key;
      list := list[..|list| - 1];
      if delKey in iter {
        iter := iter - {delKey};
      }
    }

    method GetCache(key: Key) returns (ret: Option<V>)
      requires Valid()
      modifies this
      ensures Valid() && fresh(Nodes() - old(Nodes()))
      ensures ret == Find(old(Items()), key)
      ensures Contents() == AfterGet(old(Contents()), key)
      ensures sessFlag ==> list == old(list)
    {
      FindNode(key);
      ret := None;
      if key in iter {
        var node := iter[key];
        ret := Some(node.value);
        if !sessFlag {
          MoveToFront(node);
        }
      }
    }

    method AssignValue(node: Node<V>, value: V)
      requires Valid() && node in list
      modifies node
      ensures Items() == Replaced(old(Items()), node.key, value) && node.value == value
    {
      node.value := value;
      forall i | 0 <= i < |list|
        ensures list[i] == node || list[i].key != node.key
      {
      }
      assert forall i :: 0 <= i < |list| ==> Items()[i] == Replaced(old(Items()), node.key, value)[i];
    }

    method SetCache(key: Key, value: V)
      requires Valid()
      modifies this, list
      ensures Valid() && fresh(Nodes() - old(Nodes()))
      ensures Contents() == AfterSet(old(Contents()), key, value)
    {
      FindNode(key);
      if key in iter {
        Update(iter[key], value);
      } else {
        Insert(key, value);
      }
    }

    method Update(node: Node<V>, value: V)
      requires Valid() && node in list
      modifies this, node
      ensures Valid() && capacity == old(capacity) && sessFlag == old(sessFlag)
      ensures forall n :: n in list && n !in old(list) ==> fresh(n)
      ensures Items() == if sessFlag then Replaced(old(Items()), node.key, value)
                         else [Entry(node.key, value)] + Without(old(Items()), node.key)
    {
      AssignValue(node, value);
      WithoutReplaced(old(Items()), node.key, value);
      if !sessFlag {
        MoveToFront(node);
      }
    }

    method Insert(key: Key, value: V)
      requires Valid() && key !in iter
      modifies this
      ensures Valid() && capacity == old(capacity) && sessFlag == old(sessFlag)
      ensures forall n :: n in list && n !in old(list) ==> fresh(n)
      ensures var items := old(Items());
              Items() == [Entry(key, value)] + if capacity < |items| && !sessFlag then items[..|items| - 1] else items
    {
      if capacity < |list| && !sessFlag {
        PopBack();
      }
      PushFront(key, value);
    }

    /** The map finds a key exactly if the list does, and then the node with its value. */
    lemma FindNode(key: Key)
      requires Valid()
      ensures Find(Items(), key) == if key in iter then Some(iter[key].value) else None
      ensures Distinct(Keys(Items()))
    {
      FindIsKey(Items(), key);
      if key in iter {
        var i :| 0 <= i < |list| && list[i] == iter[key];
        assert Items()[i].key == key;
      } else {
        assert forall i :: 0 <= i < |list| ==> Keys(Items())[i] == list[i].key;
      }
    }

    static lemma {:induction false} WithoutReplaced(items: seq<Entry<V>>, key: Key, value: V)
      ensures Without(Replaced(items, key, value), key) == Without(items, key)
    {
      if items != [] {
        WithoutReplaced(items[1..], key, value);
        assert Replaced(items, key, value)[1..] == Replaced(items[1..], key, value);
      }
    }
  }
}
