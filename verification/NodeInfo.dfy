/**
  `NodeInfoManager`: the accepted rows of t_node_info, listed globally, per chain and per chain and type,
  every list sorted by usability, highest first, then by id. What `sort.Slice` does is its contract
  only: a sorted rearrangement.
 */
module NodeInfos {
  import opened Text

  datatype NodeInfo = NodeInfo(
    id: int, chainId: int, realChainId: int, rpcURL: string, nodeType: int, usability: int)

  /** The sort's `less`: a goes before b. */
  predicate Less(a: NodeInfo, b: NodeInfo) {
    if a.usability == b.usability then a.id < b.id else a.usability > b.usability
  }

  predicate Sorted(s: seq<NodeInfo>) {
    forall i, j :: 0 <= i < j < |s| ==> !Less(s[j], s[i])
  }

  /** t is s rearranged in order. */
  ghost predicate SortOf(s: seq<NodeInfo>, t: seq<NodeInfo>) {
    multiset(t) == multiset(s) && Sorted(t)
  }

  /** No two different nodes share an id. */
  predicate IdsIdentify(s: seq<NodeInfo>) {
    forall a, b :: a in s && b in s && a.id == b.id ==> a == b
  }

  function OnChain(c: int): NodeInfo -> bool { (n: NodeInfo) => n.realChainId == c }

  function OnChainOfType(c: int, t: int): NodeInfo -> bool { (n: NodeInfo) => n.realChainId == c && n.nodeType == t }

  // ---- Sorting ----

  function InsertedAt(t: seq<NodeInfo>, x: NodeInfo, i: nat): (r: seq<NodeInfo>)
    requires i <= |t|
    ensures |r| == |t| + 1 && r[i] == x
    ensures forall j :: 0 <= j < i ==> r[j] == t[j]
    ensures forall j :: i < j < |r| ==> r[j] == t[j - 1]
  {
    t[..i] + [x] + t[i..]
  }

  lemma InsertKeepsSorted(t: seq<NodeInfo>, x: NodeInfo, i: nat)
    requires Sorted(t) && i <= |t|
    requires forall j :: 0 <= j < i ==> !Less(x, t[j])
    requires i < |t| ==> Less(x, t[i])
    ensures Sorted(InsertedAt(t, x, i))
  {}

  lemma InsertKeepsMultiset(t: seq<NodeInfo>, x: NodeInfo, i: nat)
    requires i <= |t|
    ensures multiset(InsertedAt(t, x, i)) == multiset(t + [x])
  {
    assert t == t[..i] + t[i..];
  }

  method InsertNode(t: seq<NodeInfo>, x: NodeInfo) returns (r: seq<NodeInfo>)
    requires Sorted(t)
    ensures SortOf(t + [x], r)
  {
    var i := 0;
    while i < |t| && !Less(x, t[i])
      invariant 0 <= i <= |t|
      invariant forall j :: 0 <= j < i ==> !Less(x, t[j])
    {
      i := i + 1;
    }
    InsertKeepsSorted(t, x, i);
    InsertKeepsMultiset(t, x, i);
    r := InsertedAt(t, x, i);
  }

  /** sortNodesByUsability */
  method SortNodes(s: seq<NodeInfo>) returns (t: seq<NodeInfo>)
    ensures SortOf(s, t)
  {
    t := [];
    for n := 0 to |s|
      invariant SortOf(s[..n], t)
    {
      t := InsertNode(t, s[n]);
      assert s[..n + 1] == s[..n] + [s[n]];
    }
    assert s[..|s|] == s;
  }

  lemma SameMembers(s: seq<NodeInfo>, t: seq<NodeInfo>)
    requires multiset(s) == multiset(t)
    ensures |s| == |t| && forall a :: a in s <==> a in t
  {
    assert |multiset(s)| == |multiset(t)|;
    forall a ensures a in s <==> a in t {
      assert a in s <==> a in multiset(s);
    }
  }

  lemma HeadIsLeast(s: seq<NodeInfo>, a: NodeInfo)
    requires Sorted(s) && a in s
    ensures !Less(a, s[0])
  {}

  lemma TailMultiset(s: seq<NodeInfo>)
    requires s != []
    ensures multiset(s[1..]) == multiset(s) - multiset{s[0]}
    ensures IdsIdentify(s) ==> IdsIdentify(s[1..])
  {
    assert s == [s[0]] + s[1..];
    assert forall a :: a in s[1..] ==> a in s;
  }

  lemma HeadsAgree(s: seq<NodeInfo>, t: seq<NodeInfo>)
    requires multiset(s) == multiset(t) && Sorted(s) && Sorted(t) && IdsIdentify(s) && s != [] && t != []
    ensures s[0] == t[0]
  {
    SameMembers(s, t);
    assert s[0] in t && t[0] in s;
    HeadIsLeast(s, t[0]);
    HeadIsLeast(t, s[0]);
  }

  /** A list whose ids identify its nodes has one sorted rearrangement. */
  lemma {:induction false} SortedUnique(s: seq<NodeInfo>, t: seq<NodeInfo>)
    requires multiset(s) == multiset(t) && Sorted(s) && Sorted(t) && IdsIdentify(s)
    ensures s == t
  {
    SameMembers(s, t);
    if s != [] {
      HeadsAgree(s, t);
      TailMultiset(s);
      TailMultiset(t);
      SortedUnique(s[1..], t[1..]);
      assert s == [s[0]] + s[1..] && t == [t[0]] + t[1..];
    }
  }

  // ---- Filtering ----

  lemma {:induction false} SelectCounts(s: seq<NodeInfo>, p: NodeInfo -> bool, a: NodeInfo)
    ensures multiset(Select(s, p))[a] == if p(a) then multiset(s)[a] else 0
    ensures a in Select(s, p) <==> a in s && p(a)
  {
    if s != [] {
      SelectCounts(s[..|s| - 1], p, a);
      assert s == s[..|s| - 1] + [s[|s| - 1]];
    }
  }

  lemma SelectOfRearranged(s: seq<NodeInfo>, t: seq<NodeInfo>, p: NodeInfo -> bool)
    requires multiset(s) == multiset(t)
    ensures multiset(Select(s, p)) == multiset(Select(t, p))
  {
    forall a ensures multiset(Select(s, p))[a] == multiset(Select(t, p))[a] {
      SelectCounts(s, p, a);
      SelectCounts(t, p, a);
    }
  }

  lemma {:induction false} SelectOfSorted(s: seq<NodeInfo>, p: NodeInfo -> bool)
    requires Sorted(s)
    ensures Sorted(Select(s, p))
  {
    if s != [] {
      var front := s[..|s| - 1];
      SelectOfSorted(front, p);
      forall i | 0 <= i < |Select(front, p)| ensures !Less(s[|s| - 1], Select(front, p)[i]) {
        SelectCounts(front, p, Select(front, p)[i]);
      }
    }
  }

  /** Sorting a group gives the same list as taking the group out of the sorted whole. */
  lemma GroupOfSortedWhole(rows: seq<NodeInfo>, whole: seq<NodeInfo>, group: seq<NodeInfo>, p: NodeInfo -> bool)
    requires SortOf(rows, whole) && SortOf(Select(rows, p), group) && IdsIdentify(rows)
    ensures group == Select(whole, p)
  {
    SelectOfRearranged(rows, whole, p);
    SelectOfSorted(whole, p);
    SameMembers(Select(rows, p), group);
    forall a | a in group ensures a in rows { SelectCounts(rows, p, a); }
    SortedUnique(group, Select(whole, p));
  }

  // ---- Group lists ----

  type Lists = map<int, seq<NodeInfo>>

  function ListAt(m: Lists, k: int): seq<NodeInfo> {
    if k in m then m[k] else []
  }

  function TypeListAt(m: map<int, Lists>, c: int, t: int): seq<NodeInfo> {
    if c in m then ListAt(m[c], t) else []
  }

  /** Every chain's list is that chain's rows in order, and likewise for every chain and type. */
  ghost predicate Grouped(byChain: Lists, byType: map<int, Lists>, rows: seq<NodeInfo>) {
    && (forall c :: ListAt(byChain, c) == Select(rows, OnChain(c)))
    && (forall c, t :: TypeListAt(byType, c, t) == Select(rows, OnChainOfType(c, t)))
  }

  /** The same, with every list sorted. */
  ghost predicate SortedGroups(byChain: Lists, byType: map<int, Lists>, rows: seq<NodeInfo>) {
    && (forall c :: SortOf(Select(rows, OnChain(c)), ListAt(byChain, c)))
    && (forall c, t :: SortOf(Select(rows, OnChainOfType(c, t)), TypeListAt(byType, c, t)))
  }

  lemma ChainRowFiled(byChain: Lists, rows: seq<NodeInfo>, n: nat, d: int)
    requires n < |rows| && ListAt(byChain, d) == Select(rows[..n], OnChain(d))
    ensures var c := rows[n].realChainId;
      ListAt(byChain[c := ListAt(byChain, c) + [rows[n]]], d) == Select(rows[..n + 1], OnChain(d))
  {
    SelectNext(rows, n, OnChain(d));
  }

  function FileType(byType: map<int, Lists>, node: NodeInfo): map<int, Lists> {
    var c, t := node.realChainId, node.nodeType;
    var typeNodes := if c in byType then byType[c] else map[];
    byType[c := typeNodes[t := ListAt(typeNodes, t) + [node]]]
  }

  lemma TypeRowFiled(byType: map<int, Lists>, rows: seq<NodeInfo>, n: nat, d: int, u: int)
    requires n < |rows| && TypeListAt(byType, d, u) == Select(rows[..n], OnChainOfType(d, u))
    ensures TypeListAt(FileType(byType, rows[n]), d, u) == Select(rows[..n + 1], OnChainOfType(d, u))
  {
    SelectNext(rows, n, OnChainOfType(d, u));
  }

  /** One row of the loader's loop: append it to its chain's list and to its chain and type's list. */
  method FileRow(byChain: Lists, byType: map<int, Lists>, rows: seq<NodeInfo>, n: nat)
    returns (byChain': Lists, byType': map<int, Lists>)
    requires n < |rows| && Grouped(byChain, byType, rows[..n])
    ensures Grouped(byChain', byType', rows[..n + 1])
  {
    var c := rows[n].realChainId;
    byChain' := byChain[c := ListAt(byChain, c) + [rows[n]]];
    byType' := FileType(byType, rows[n]);
    forall d ensures ListAt(byChain', d) == Select(rows[..n + 1], OnChain(d)) {
      ChainRowFiled(byChain, rows, n, d);
    }
    forall d, u ensures TypeListAt(byType', d, u) == Select(rows[..n + 1], OnChainOfType(d, u)) {
      TypeRowFiled(byType, rows, n, d, u);
    }
  }

  method GroupRows(rows: seq<NodeInfo>) returns (byChain: Lists, byType: map<int, Lists>)
    ensures Grouped(byChain, byType, rows)
  {
    byChain, byType := map[], map[];
    for n := 0 to |rows|
      invariant Grouped(byChain, byType, rows[..n])
    {
      byChain, byType := FileRow(byChain, byType, rows, n);
    }
    assert rows[..|rows|] == rows;
  }

  /** Sort every list of a map. */
  method SortLists(m: Lists) returns (r: Lists)
    ensures forall k :: SortOf(ListAt(m, k), ListAt(r, k))
  {
    r := m;
    var todo := m.Keys;
    while todo != {}
      invariant todo <= m.Keys == r.Keys
      invariant forall k :: k in m ==> if k in todo then r[k] == m[k] else SortOf(m[k], r[k])
      decreases |todo|
    {
      var k := Pick(todo);
      todo := todo - {k};
      var list := SortNodes(m[k]);
      r := r[k := list];
    }
  }

  /** Sort every list of every chain. */
  method SortTypeLists(m: map<int, Lists>) returns (r: map<int, Lists>)
    ensures forall c, t :: SortOf(TypeListAt(m, c, t), TypeListAt(r, c, t))
  {
    r := m;
    var todo := m.Keys;
    while todo != {}
      invariant todo <= m.Keys == r.Keys
      invariant forall c :: c in todo ==> r[c] == m[c]
      invariant forall c, t :: c in m && c !in todo ==> SortOf(ListAt(m[c], t), ListAt(r[c], t))
      decreases |todo|
    {
      var c := Pick(todo);
      todo := todo - {c};
      var lists := SortLists(m[c]);
      r := r[c := lists];
    }
  }

  lemma SortedGroupsOf(byChain: Lists, byType: map<int, Lists>, sortedByChain: Lists, sortedByType: map<int, Lists>,
      rows: seq<NodeInfo>)
    requires Grouped(byChain, byType, rows)
    requires forall k :: SortOf(ListAt(byChain, k), ListAt(sortedByChain, k))
    requires forall c, t :: SortOf(TypeListAt(byType, c, t), TypeListAt(sortedByType, c, t))
    ensures SortedGroups(sortedByChain, sortedByType, rows)
  {}

  method IndexById(rows: seq<NodeInfo>) returns (ids: map<int, NodeInfo>)
    ensures IdIndex(ids, rows)
  {
    ids := map[];
    for n := 0 to |rows|
      invariant IdIndex(ids, rows[..n])
    {
      ids := ids[rows[n].id := rows[n]];
      forall id ensures Select(rows[..n + 1], HasId(id))
        == Select(rows[..n], HasId(id)) + if rows[n].id == id then [rows[n]] else []
      {
        SelectNext(rows, n, HasId(id));
      }
    }
    assert rows[..|rows|] == rows;
  }

  function HasId(id: int): NodeInfo -> bool { (n: NodeInfo) => n.id == id }

  /** The id index holds, for every id that some row has, the last row with it. */
  ghost predicate IdIndex(ids: map<int, NodeInfo>, rows: seq<NodeInfo>) {
    forall id :: var same := Select(rows, HasId(id));
      if same == [] then id !in ids else id in ids && ids[id] == same[|same| - 1]
  }

  /** The four indexes of a list of rows. */
  ghost predicate Loaded(rows: seq<NodeInfo>, ids: map<int, NodeInfo>, byChain: Lists, byType: map<int, Lists>,
      all: seq<NodeInfo>)
  {
    SortOf(rows, all) && SortedGroups(byChain, byType, rows) && IdIndex(ids, rows)
  }

  /** The loader: one pass over the rows, then every list is sorted. */
  method BuildIndexes(rows: seq<NodeInfo>)
    returns (ids: map<int, NodeInfo>, byChain: Lists, byType: map<int, Lists>, all: seq<NodeInfo>)
    ensures Loaded(rows, ids, byChain, byType, all)
  {
    var unsortedByChain, unsortedByType := GroupRows(rows);
    ids := IndexById(rows);
    all := SortNodes(rows);
    byChain := SortLists(unsortedByChain);
    byType := SortTypeLists(unsortedByType);
    SortedGroupsOf(unsortedByChain, unsortedByType, byChain, byType, rows);
  }

  /** a is at least as usable as b, and has the smaller id if they tie. */
  predicate NoWorse(a: NodeInfo, b: NodeInfo) {
    b.usability < a.usability || (b.usability == a.usability && a.id <= b.id)
  }

  method FirstUsable(nodes: seq<NodeInfo>) returns (r: Option<NodeInfo>)
    requires Sorted(nodes)
    ensures r.None? <==> forall a :: a in nodes ==> a.usability <= 0
    ensures r.Some? ==> r.value in nodes && r.value.usability > 0 && forall a :: a in nodes ==> NoWorse(r.value, a)
  {
    for i := 0 to |nodes|
      invariant forall j :: 0 <= j < i ==> nodes[j].usability <= 0
    {
      if nodes[i].usability > 0 {
        assert forall j :: i < j < |nodes| ==> !Less(nodes[j], nodes[i]);
        return Some(nodes[i]);
      }
    }
    return None;
  }

  class NodeInfoManager {
    var idNodes: map<int, NodeInfo>
    var realChainIdNodes: Lists
    var realChainIdTypeNodes: map<int, Lists>
    var allNodes: seq<NodeInfo>
    ghost var rows: seq<NodeInfo>

    ghost predicate Valid()
      reads this
    {
      Loaded(rows, idNodes, realChainIdNodes, realChainIdTypeNodes, allNodes)
    }

    constructor ()
      ensures Valid() && rows == []
    {
      idNodes, realChainIdNodes, realChainIdTypeNodes, allNodes, rows := map[], map[], map[], [], [];
    }

    method LoadAllNodes(accepted: seq<NodeInfo>)
      modifies this
      ensures Valid() && rows == accepted
    {
      var ids, byChain, byType, all := BuildIndexes(accepted);
      idNodes, realChainIdNodes, realChainIdTypeNodes, allNodes, rows := ids, byChain, byType, all, accepted;
    }

    method GetNodeInfoById(id: int) returns (r: Option<NodeInfo>)
      requires Valid()
      ensures r.None? <==> forall a :: a in rows ==> a.id != id
      ensures r.Some? ==> r.value in rows && r.value.id == id
    {
      var same := Select(rows, HasId(id));
      forall a ensures a in same <==> a in rows && a.id == id { SelectCounts(rows, HasId(id), a); }
      assert same != [] ==> same[|same| - 1] in same;
      r := if id in idNodes then Some(idNodes[id]) else None;
    }

    /** The first node, by usability and then id, of the chain and type. */
    method GetBestNodeByRealChainIdAndType(realChainId: int, nodeType: int) returns (r: Option<NodeInfo>)
      requires Valid()
      ensures r.None? <==> forall a :: a in rows ==> !(a.realChainId == realChainId && a.nodeType == nodeType)
      ensures r.Some? ==>
        && r.value in rows && r.value.realChainId == realChainId && r.value.nodeType == nodeType
        && forall a :: a in rows && a.realChainId == realChainId && a.nodeType == nodeType ==> NoWorse(r.value, a)
    {
      var p := OnChainOfType(realChainId, nodeType);
      var nodes := TypeListAt(realChainIdTypeNodes, realChainId, nodeType);
      GroupMembers(rows, nodes, p);
      if |nodes| == 0 {
        return None;
      }
      assert nodes[0] in nodes && p(nodes[0]);
      return Some(nodes[0]);
    }

    /** The best node of the chain among those with positive usability. */
    method GetAvailableNodeByRealChainId(realChainId: int) returns (r: Option<NodeInfo>)
      requires Valid()
      ensures r.None? <==> forall a :: a in rows && a.realChainId == realChainId ==> a.usability <= 0
      ensures r.Some? ==>
        && r.value in rows && r.value.realChainId == realChainId && r.value.usability > 0
        && forall a :: a in rows && a.realChainId == realChainId ==> NoWorse(r.value, a)
    {
      var nodes := ListAt(realChainIdNodes, realChainId);
      GroupMembers(rows, nodes, OnChain(realChainId));
      r := FirstUsable(nodes);
    }

    /** When no two nodes share an id, every group list is the global list with the other nodes left out. */
    lemma GroupsAreFilteredWhole(c: int, t: int)
      requires Valid() && IdsIdentify(rows)
      ensures ListAt(realChainIdNodes, c) == Select(allNodes, OnChain(c))
      ensures TypeListAt(realChainIdTypeNodes, c, t) == Select(allNodes, OnChainOfType(c, t))
    {
      GroupOfSortedWhole(rows, allNodes, ListAt(realChainIdNodes, c), OnChain(c));
      GroupOfSortedWhole(rows, allNodes, TypeListAt(realChainIdTypeNodes, c, t), OnChainOfType(c, t));
    }
  }

  lemma GroupMembers(rows: seq<NodeInfo>, group: seq<NodeInfo>, p: NodeInfo -> bool)
    requires SortOf(Select(rows, p), group)
    ensures forall a :: a in group <==> a in rows && p(a)
  {
    SameMembers(Select(rows, p), group);
    forall a ensures a in group <==> a in rows && p(a) { SelectCounts(rows, p, a); }
  }
}
