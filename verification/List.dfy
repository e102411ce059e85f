/** The intrusive circular list of kernel/lib/list.h. */
module List {
  import opened Sequences

  class Entry {
    var next: Entry?
    var prev: Entry?

    constructor ()
      ensures next == prev == null
    {
      next, prev := null, null;
    }
  }

  /** The head followed by the entries. */
  ghost function All(head: Entry, q: seq<Entry>): seq<Entry> { [head] + q }

  ghost function Set(head: Entry, q: seq<Entry>): set<Entry> { set e | e in All(head, q) }

  /** Who follows the i-th of n in a ring. */
  function After(i: nat, n: nat): nat { if i + 1 < n then i + 1 else 0 }

  /** s is linked into a ring, in both directions. */
  ghost predicate Linked(s: seq<Entry>)
    reads s
  {
    forall i :: 0 <= i < |s| ==> s[i].next == s[After(i, |s|)] && s[After(i, |s|)].prev == s[i]
  }

  /** The list of head holds exactly the entries of q, in order. */
  ghost predicate Holds(head: Entry, q: seq<Entry>)
    reads head, q
  {
    NoDup(All(head, q)) && Linked(All(head, q))
  }

  /** list_init. */
  method ListInit(head: Entry)
    modifies head
    ensures Holds(head, [])
  {
    head.next := head;
    head.prev := head;
  }

  /** list_is_empty. */
  method ListIsEmpty(head: Entry, ghost q: seq<Entry>) returns (empty: bool)
    requires Holds(head, q)
    ensures empty <==> q == []
  {
    assert All(head, q)[0] == head;
    assert q != [] ==> All(head, q)[1] == q[0];
    empty := head.next == head;
  }

  /** __list_add between the k-th of the ring and its follower. */
  method InsertAfter(entry: Entry, prev: Entry, next: Entry, ghost head: Entry, ghost q: seq<Entry>, ghost k: nat)
    requires Holds(head, q) && entry !in All(head, q) && k <= |q|
    requires prev == All(head, q)[k] && next == All(head, q)[After(k, |q| + 1)]
    modifies Set(head, q), entry
    ensures Holds(head, q[..k] + [entry] + q[k..])
  {
    ghost var s, s' := All(head, q), All(head, q[..k] + [entry] + q[k..]);
    InsertedAt(head, q, k, entry);
    next.prev := entry;
    entry.next := next;
    entry.prev := prev;
    prev.next := entry;
    forall i | 0 <= i < |s'| ensures s'[i].next == s'[After(i, |s'|)] && s'[After(i, |s'|)].prev == s'[i] {
      assert i != k && i != k + 1 ==> old(s[if i <= k then i else i - 1].next) == s[After(if i <= k then i else i - 1, |s|)];
    }
  }

  lemma InsertedAt(head: Entry, q: seq<Entry>, k: nat, entry: Entry)
    requires k <= |q| && NoDup(All(head, q)) && entry !in All(head, q)
    ensures var s, s' := All(head, q), All(head, q[..k] + [entry] + q[k..]);
            && |s'| == |s| + 1 && s'[k + 1] == entry && NoDup(s')
            && (forall i :: 0 <= i <= k ==> s'[i] == s[i]) && (forall i :: k + 1 < i < |s'| ==> s'[i] == s[i - 1])
  {
    var s, s' := All(head, q), All(head, q[..k] + [entry] + q[k..]);
    forall i, j | 0 <= i < j < |s'| ensures s'[i] != s'[j] {
      assert i != k + 1 ==> s'[i] == s[if i <= k then i else i - 1];
      assert j != k + 1 ==> s'[j] == s[if j <= k then j else j - 1];
    }
  }

  /** list_add: the entry becomes the first. */
  method ListAdd(head: Entry, entry: Entry, ghost q: seq<Entry>)
    requires Holds(head, q) && entry !in All(head, q)
    modifies Set(head, q), entry
    ensures Holds(head, [entry] + q)
  {
    assert All(head, q)[0] == head;
    InsertAfter(entry, head, head.next, head, q, 0);
    assert q[..0] + [entry] + q[0..] == [entry] + q;
  }

  /** list_add_tail: the entry becomes the last. */
  method ListAddTail(head: Entry, entry: Entry, ghost q: seq<Entry>)
    requires Holds(head, q) && entry !in All(head, q)
    modifies Set(head, q), entry
    ensures Holds(head, q + [entry])
  {
    assert After(|q|, |q| + 1) == 0 && All(head, q)[0] == head;
    InsertAfter(entry, head.prev, head, head, q, |q|);
    assert q[..|q|] + [entry] + q[|q|..] == q + [entry];
  }

  /** list_del: the entry leaves the list it is on; the head need not be known. Its own links are poisoned. */
  method ListDel(entry: Entry, ghost head: Entry, ghost q: seq<Entry>, ghost k: nat)
    requires Holds(head, q) && k < |q| && q[k] == entry
    modifies Set(head, q)
    ensures Holds(head, q[..k] + q[k + 1..]) && entry.next == entry.prev == null
  {
    ghost var s, s' := All(head, q), All(head, q[..k] + q[k + 1..]);
    assert s[k + 1] == entry && s[After(k, |s|)] == entry;
    RemovedAt(head, q, k);
    var prev, next := entry.prev, entry.next;
    next.prev := prev;
    prev.next := next;
    entry.next := null;
    entry.prev := null;
    forall i | 0 <= i < |s'| ensures s'[i].next == s'[After(i, |s'|)] && s'[After(i, |s'|)].prev == s'[i] {
      assert i != k ==> old(s[if i <= k then i else i + 1].next) == s[After(if i <= k then i else i + 1, |s|)];
    }
  }

  lemma RemovedAt(head: Entry, q: seq<Entry>, k: nat)
    requires k < |q| && NoDup(All(head, q))
    ensures var s, s' := All(head, q), All(head, q[..k] + q[k + 1..]);
            && |s'| == |s| - 1 && NoDup(s')
            && (forall i :: 0 <= i <= k ==> s'[i] == s[i]) && (forall i :: k < i < |s'| ==> s'[i] == s[i + 1])
  {
    var s, s' := All(head, q), All(head, q[..k] + q[k + 1..]);
    forall i, j | 0 <= i < j < |s'| ensures s'[i] != s'[j] {
      assert s'[i] == s[if i <= k then i else i + 1] && s'[j] == s[if j <= k then j else j + 1];
    }
  }

  /** list_pop: the first entry, or null. */
  method ListPop(head: Entry, ghost q: seq<Entry>) returns (entry: Entry?)
    requires Holds(head, q)
    modifies Set(head, q)
    ensures entry == if q == [] then null else q[0]
    ensures Holds(head, if q == [] then [] else q[1..])
  {
    var empty := ListIsEmpty(head, q);
    if empty {
      return null;
    }
    assert All(head, q)[0] == head && All(head, q)[1] == q[0];
    entry := head.next;
    ListDel(entry, head, q, 0);
    assert q[..0] + q[1..] == q[1..];
  }
}
