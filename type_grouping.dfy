/**
 * Grouping of subgraph ids by the type string each subgraph declares, as
 * the rule does with its `Map<string, string[]>` (and `Map<string, Set>`):
 * one group per distinct type, groups in the order their type first
 * occurs, and the ids of a group in declaration order.
 */
module TypeGrouping {

  /** One entry of an argument's `byGraph` map: a subgraph id and the type it declares. */
  datatype Decl = Decl(graph: string, typ: string)

  /** One entry of the rule's type-to-subgraphs map. */
  datatype TypeGroup = TypeGroup(typ: string, graphs: seq<string>)

  /** A JavaScript `Map` has one entry per key, so `byGraph` never repeats a subgraph id. */
  predicate DistinctGraphs(decls: seq<Decl>)
  {
    forall i, j | 0 <= i < j < |decls| :: decls[i].graph != decls[j].graph
  }

  /** The keys of a sequence of groups, in order. */
  function KeysOf(groups: seq<TypeGroup>): (r: seq<string>)
    ensures |r| == |groups|
    ensures forall i :: 0 <= i < |groups| ==> r[i] == groups[i].typ
  {
    seq(|groups|, i requires 0 <= i < |groups| => groups[i].typ)
  }

  predicate DistinctKeys(groups: seq<TypeGroup>)
  {
    forall i, j | 0 <= i < j < |groups| :: groups[i].typ != groups[j].typ
  }

  /**
   * Recording one more subgraph: appended to the group of its type when
   * there is one (`existing.push(graphName)`), otherwise a new group at the
   * end (`typeToGraphs.set(type, [graphName])`).
   */
  function AddToGroups(groups: seq<TypeGroup>, graph: string, typ: string): seq<TypeGroup>
  {
    if groups == [] then [TypeGroup(typ, [graph])]
    else if groups[0].typ == typ then [TypeGroup(typ, groups[0].graphs + [graph])] + groups[1..]
    else [groups[0]] + AddToGroups(groups[1..], graph, typ)
  }

  /** The groups after recording every entry of `decls` in order (the source's `forEach`). */
  function GroupByType(decls: seq<Decl>): seq<TypeGroup>
  {
    if decls == [] then []
    else
      var last := decls[|decls| - 1];
      AddToGroups(GroupByType(decls[..|decls| - 1]), last.graph, last.typ)
  }

  // ---------------------------------------------------------------------
  // An independent reference definition of the grouping

  /** The declared types, in declaration order. */
  function TypesOf(decls: seq<Decl>): (r: seq<string>)
    ensures |r| == |decls|
    ensures forall i :: 0 <= i < |decls| ==> r[i] == decls[i].typ
  {
    seq(|decls|, i requires 0 <= i < |decls| => decls[i].typ)
  }

  /** The distinct declared types, each at the position of its first occurrence. */
  function DistinctTypes(decls: seq<Decl>): seq<string>
  {
    if decls == [] then []
    else
      var earlier := DistinctTypes(decls[..|decls| - 1]);
      var t := decls[|decls| - 1].typ;
      if t in earlier then earlier else earlier + [t]
  }

  /** The ids of the subgraphs that declare type `t`, in declaration order. */
  function GraphsOfType(decls: seq<Decl>, t: string): seq<string>
  {
    if decls == [] then []
    else
      var last := decls[|decls| - 1];
      GraphsOfType(decls[..|decls| - 1], t) + (if last.typ == t then [last.graph] else [])
  }

  /** One group per distinct type, in first-occurrence order, holding that type's subgraphs. */
  function ReferenceGroups(decls: seq<Decl>): (r: seq<TypeGroup>)
    ensures |r| == |DistinctTypes(decls)|
  {
    var types := DistinctTypes(decls);
    seq(|types|, i requires 0 <= i < |types| => TypeGroup(types[i], GraphsOfType(decls, types[i])))
  }

  // ---------------------------------------------------------------------
  // Facts about the reference definition

  lemma {:induction false} DistinctTypesFacts(decls: seq<Decl>)
    ensures forall i, j | 0 <= i < j < |DistinctTypes(decls)| :: DistinctTypes(decls)[i] != DistinctTypes(decls)[j]
    ensures forall t :: t in DistinctTypes(decls) <==> t in TypesOf(decls)
  {
    if decls != [] {
      var init := decls[..|decls| - 1];
      DistinctTypesFacts(init);
      assert TypesOf(decls) == TypesOf(init) + [decls[|decls| - 1].typ];
    }
  }

  lemma {:induction false} GraphsOfTypeMembers(decls: seq<Decl>, t: string)
    ensures forall id :: id in GraphsOfType(decls, t) <==> Decl(id, t) in decls
    ensures GraphsOfType(decls, t) == [] <==> t !in TypesOf(decls)
  {
    if decls != [] {
      var init, last := decls[..|decls| - 1], decls[|decls| - 1];
      GraphsOfTypeMembers(init, t);
      assert decls == init + [last];
      assert TypesOf(decls) == TypesOf(init) + [last.typ];
    }
  }

  /** Without a group for `typ`, recording a subgraph appends a new group. */
  lemma {:induction false} AddToGroupsNew(groups: seq<TypeGroup>, graph: string, typ: string)
    requires typ !in KeysOf(groups)
    ensures AddToGroups(groups, graph, typ) == groups + [TypeGroup(typ, [graph])]
  {
    if groups != [] {
      assert groups[0].typ == KeysOf(groups)[0];
      assert KeysOf(groups[1..]) == KeysOf(groups)[1..];
      AddToGroupsNew(groups[1..], graph, typ);
      assert groups == [groups[0]] + groups[1..];
    }
  }

  /** With distinct keys and a group for `typ`, recording a subgraph extends just that group. */
  lemma {:induction false} AddToGroupsExisting(groups: seq<TypeGroup>, graph: string, typ: string)
    requires DistinctKeys(groups)
    requires typ in KeysOf(groups)
    ensures |AddToGroups(groups, graph, typ)| == |groups|
    ensures forall i | 0 <= i < |groups| ::
      AddToGroups(groups, graph, typ)[i]
        == if groups[i].typ == typ then TypeGroup(typ, groups[i].graphs + [graph]) else groups[i]
  {
    if groups[0].typ != typ {
      assert KeysOf(groups[1..]) == KeysOf(groups)[1..];
      AddToGroupsExisting(groups[1..], graph, typ);
    }
  }

  /** A type already declared earlier: its group gains the new subgraph. */
  lemma ReferenceStepExisting(decls: seq<Decl>)
    requires decls != []
    requires decls[|decls| - 1].typ in DistinctTypes(decls[..|decls| - 1])
    ensures ReferenceGroups(decls)
      == AddToGroups(ReferenceGroups(decls[..|decls| - 1]), decls[|decls| - 1].graph, decls[|decls| - 1].typ)
  {
    var init, last := decls[..|decls| - 1], decls[|decls| - 1];
    var before := ReferenceGroups(init);
    DistinctTypesFacts(init);
    assert KeysOf(before) == DistinctTypes(init);
    AddToGroupsExisting(before, last.graph, last.typ);
    var after := AddToGroups(before, last.graph, last.typ);
    assert DistinctTypes(decls) == DistinctTypes(init);
    forall i | 0 <= i < |after| ensures after[i] == ReferenceGroups(decls)[i] {
      var t := DistinctTypes(init)[i];
      assert GraphsOfType(decls, t) == GraphsOfType(init, t) + (if last.typ == t then [last.graph] else []);
    }
  }

  /** A type declared for the first time: a new group at the end. */
  lemma ReferenceStepNew(decls: seq<Decl>)
    requires decls != []
    requires decls[|decls| - 1].typ !in DistinctTypes(decls[..|decls| - 1])
    ensures ReferenceGroups(decls)
      == AddToGroups(ReferenceGroups(decls[..|decls| - 1]), decls[|decls| - 1].graph, decls[|decls| - 1].typ)
  {
    var init, last := decls[..|decls| - 1], decls[|decls| - 1];
    var before := ReferenceGroups(init);
    assert KeysOf(before) == DistinctTypes(init);
    AddToGroupsNew(before, last.graph, last.typ);
    var after := AddToGroups(before, last.graph, last.typ);
    var types := DistinctTypes(decls);
    assert types == DistinctTypes(init) + [last.typ];
    DistinctTypesFacts(init);
    GraphsOfTypeMembers(init, last.typ);
    forall i | 0 <= i < |after| ensures after[i] == ReferenceGroups(decls)[i] {
      var t := types[i];
      assert GraphsOfType(decls, t) == GraphsOfType(init, t) + (if last.typ == t then [last.graph] else []);
      if i < |before| {
        assert t != last.typ;
      }
    }
  }

  /** The grouping the source computes is the reference grouping. */
  lemma {:induction false} GroupByTypeIsReference(decls: seq<Decl>)
    ensures GroupByType(decls) == ReferenceGroups(decls)
  {
    if decls != [] {
      var init, last := decls[..|decls| - 1], decls[|decls| - 1];
      GroupByTypeIsReference(init);
      if last.typ in DistinctTypes(init) {
        ReferenceStepExisting(decls);
      } else {
        ReferenceStepNew(decls);
      }
    }
  }

  // ---------------------------------------------------------------------
  // What the grouping promises

  /**
   * The groups have distinct keys; group `i` holds exactly the subgraphs
   * that declare its key, in declaration order, and is never empty; and
   * every declared type has a group.
   */
  lemma GroupsPartition(decls: seq<Decl>)
    ensures DistinctKeys(GroupByType(decls))
    ensures forall i | 0 <= i < |GroupByType(decls)| ::
      GroupByType(decls)[i].graphs == GraphsOfType(decls, GroupByType(decls)[i].typ)
      && GroupByType(decls)[i].graphs != []
    ensures forall i, id | 0 <= i < |GroupByType(decls)| ::
      id in GroupByType(decls)[i].graphs <==> Decl(id, GroupByType(decls)[i].typ) in decls
    ensures forall t :: t in KeysOf(GroupByType(decls)) <==> t in TypesOf(decls)
  {
    GroupByTypeIsReference(decls);
    DistinctTypesFacts(decls);
    var groups := GroupByType(decls);
    assert KeysOf(groups) == DistinctTypes(decls);
    forall i | 0 <= i < |groups|
      ensures groups[i].graphs != []
      ensures forall id :: id in groups[i].graphs <==> Decl(id, groups[i].typ) in decls
    {
      GraphsOfTypeMembers(decls, groups[i].typ);
    }
  }

  /**
   * With distinct subgraph ids, every subgraph is in exactly one group: its
   * type is the key of a group (and keys are distinct), and a group holds the
   * subgraph exactly when the group's key is the subgraph's type.
   */
  lemma ExactlyOneGroup(decls: seq<Decl>)
    requires DistinctGraphs(decls)
    ensures DistinctKeys(GroupByType(decls))
    ensures forall k | 0 <= k < |decls| :: decls[k].typ in KeysOf(GroupByType(decls))
    ensures forall k, i | 0 <= k < |decls| && 0 <= i < |GroupByType(decls)| ::
      decls[k].graph in GroupByType(decls)[i].graphs <==> GroupByType(decls)[i].typ == decls[k].typ
  {
    GroupsPartition(decls);
    var groups := GroupByType(decls);
    forall k | 0 <= k < |decls|
      ensures decls[k].typ in KeysOf(groups)
    {
      assert TypesOf(decls)[k] in TypesOf(decls);
    }
    forall k, i | 0 <= k < |decls| && 0 <= i < |groups|
      ensures decls[k].graph in groups[i].graphs <==> groups[i].typ == decls[k].typ
    {
      if decls[k].graph in groups[i].graphs {
        var k' :| 0 <= k' < |decls| && decls[k'] == Decl(decls[k].graph, groups[i].typ);
        assert k' == k;
      }
      if groups[i].typ == decls[k].typ {
        assert Decl(decls[k].graph, groups[i].typ) == decls[k] && decls[k] in decls;
      }
    }
  }

  /**
   * Groups appear in first-occurrence order: before any declaration of a
   * later group's type, the type of every earlier group has already been
   * declared.
   */
  lemma {:induction false} FirstOccurrenceOrder(decls: seq<Decl>)
    ensures forall i, j, k | 0 <= i < j < |GroupByType(decls)| && 0 <= k < |decls| && decls[k].typ == GroupByType(decls)[j].typ ::
      GroupByType(decls)[i].typ in TypesOf(decls[..k])
  {
    GroupByTypeIsReference(decls);
    DistinctTypesOrder(decls);
  }

  lemma {:induction false} DistinctTypesOrder(decls: seq<Decl>)
    ensures forall i, j, k | 0 <= i < j < |DistinctTypes(decls)| && 0 <= k < |decls| && decls[k].typ == DistinctTypes(decls)[j] ::
      DistinctTypes(decls)[i] in TypesOf(decls[..k])
  {
    if decls != [] {
      var init, last := decls[..|decls| - 1], decls[|decls| - 1];
      var types, earlier := DistinctTypes(decls), DistinctTypes(init);
      DistinctTypesOrder(init);
      DistinctTypesFacts(init);
      forall i, j, k | 0 <= i < j < |types| && 0 <= k < |decls| && decls[k].typ == types[j]
        ensures types[i] in TypesOf(decls[..k])
      {
        if k < |init| {
          assert decls[..k] == init[..k];
          assert init[k].typ == TypesOf(init)[k];
        } else {
          assert decls[..k] == init;
          assert types[i] == earlier[i];
        }
      }
    }
  }

  /** There are two or more groups exactly when two declared types differ, and none exactly when nothing is declared. */
  lemma GroupCount(decls: seq<Decl>)
    ensures |GroupByType(decls)| == 0 <==> decls == []
    ensures |GroupByType(decls)| > 1 <==> exists i, j | 0 <= i < |decls| && 0 <= j < |decls| :: decls[i].typ != decls[j].typ
  {
    GroupsPartition(decls);
    var groups := GroupByType(decls);
    var keys := KeysOf(groups);
    if decls != [] {
      assert decls[0].typ == TypesOf(decls)[0];
    }
    if |groups| > 1 {
      assert keys[0] in keys && keys[1] in keys;
      var i :| 0 <= i < |decls| && TypesOf(decls)[i] == keys[0];
      var j :| 0 <= j < |decls| && TypesOf(decls)[j] == keys[1];
      assert decls[i].typ != decls[j].typ;
    }
    if exists i, j | 0 <= i < |decls| && 0 <= j < |decls| :: decls[i].typ != decls[j].typ {
      var i, j :| 0 <= i < |decls| && 0 <= j < |decls| && decls[i].typ != decls[j].typ;
      assert TypesOf(decls)[i] in keys && TypesOf(decls)[j] in keys;
    }
  }

  // ---------------------------------------------------------------------
  // The source's Map as an insertion-ordered key sequence over a Dafny map

  /** `order` lists the map's keys without repetition, in insertion order. */
  ghost predicate OrderedKeys(order: seq<string>, m: map<string, seq<string>>)
  {
    && (forall i, j | 0 <= i < j < |order| :: order[i] != order[j])
    && (forall t :: t in m <==> t in order)
  }

  /** `Array.from(map.entries())`. */
  function Entries(order: seq<string>, m: map<string, seq<string>>): (r: seq<TypeGroup>)
    requires forall t | t in order :: t in m
    ensures |r| == |order| && KeysOf(r) == order
    ensures forall i | 0 <= i < |order| :: r[i].graphs == m[order[i]]
  {
    seq(|order|, i requires 0 <= i < |order| => TypeGroup(order[i], m[order[i]]))
  }

  /** Pushing onto the array of an existing key is recording the subgraph in its group. */
  lemma PushExisting(order: seq<string>, m: map<string, seq<string>>, graph: string, typ: string)
    requires OrderedKeys(order, m) && typ in m
    ensures OrderedKeys(order, m[typ := m[typ] + [graph]])
    ensures Entries(order, m[typ := m[typ] + [graph]]) == AddToGroups(Entries(order, m), graph, typ)
  {
    var before := Entries(order, m);
    AddToGroupsExisting(before, graph, typ);
  }

  /** Setting a new key appends its group at the end. */
  lemma SetNew(order: seq<string>, m: map<string, seq<string>>, graph: string, typ: string)
    requires OrderedKeys(order, m) && typ !in m
    ensures OrderedKeys(order + [typ], m[typ := [graph]])
    ensures Entries(order + [typ], m[typ := [graph]]) == AddToGroups(Entries(order, m), graph, typ)
  {
    AddToGroupsNew(Entries(order, m), graph, typ);
  }

  /** A key's array in the map is the group the grouping gives for that key. */
  lemma EntryIsGroup(order: seq<string>, m: map<string, seq<string>>, decls: seq<Decl>, typ: string)
    requires OrderedKeys(order, m) && typ in m
    requires Entries(order, m) == GroupByType(decls)
    ensures m[typ] == GraphsOfType(decls, typ)
  {
    GroupsPartition(decls);
    var i :| 0 <= i < |order| && order[i] == typ;
    assert Entries(order, m)[i].graphs == m[typ];
  }

  /** Two declarations of different types give one group each, in declaration order. */
  lemma {:induction false} TwoDistinctTypes(decls: seq<Decl>)
    requires |decls| == 2 && decls[0].typ != decls[1].typ
    ensures GroupByType(decls)
      == [TypeGroup(decls[0].typ, [decls[0].graph]), TypeGroup(decls[1].typ, [decls[1].graph])]
  {
    var first := TypeGroup(decls[0].typ, [decls[0].graph]);
    assert decls[..1] == [decls[0]] && decls[..1][..0] == [];
    assert GroupByType(decls[..1]) == [first];
    assert AddToGroups([first], decls[1].graph, decls[1].typ) == [first, TypeGroup(decls[1].typ, [decls[1].graph])];
  }
}
