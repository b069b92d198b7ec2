/**
 * `FieldArgumentsOfTheSameTypeRule`: for every argument of an object-type
 * field and of a directive, the subgraphs that declare it are grouped by the
 * type they give it, and one `FIELD_ARGUMENT_TYPE_MISMATCH` error is reported
 * when more than one group remains. Object-field argument types are first
 * normalised against the supergraph type; directive argument types are
 * compared as written, and only for executable directives declared in every
 * subgraph.
 */
module FieldArgumentsOfTheSameTypeRule {
  import opened Wrappers
  import opened Text
  import opened TypeNormalization
  import opened TypeGrouping
  import opened ValidationContext

  const MismatchCode: string := "FIELD_ARGUMENT_TYPE_MISMATCH"

  /** An argument: its name, the type elected for the supergraph, and each subgraph's declaration. */
  datatype ArgState = ArgState(name: string, typ: string, byGraph: seq<Decl>)

  /** What the rule reads of a directive definition. */
  datatype DirectiveState = DirectiveState(name: string, isExecutable: bool)

  /** Every subgraph's argument type normalised against the supergraph type. */
  function NormalizeAll(byGraph: seq<Decl>, supergraphType: string): (r: seq<Decl>)
    ensures |r| == |byGraph|
    ensures forall i :: 0 <= i < |byGraph| ==>
      r[i].graph == byGraph[i].graph && r[i].typ == Normalize(byGraph[i].typ, supergraphType)
  {
    seq(|byGraph|, i requires 0 <= i < |byGraph| => Decl(byGraph[i].graph, Normalize(byGraph[i].typ, supergraphType)))
  }

  // ---------------------------------------------------------------------
  // Messages

  /** `graphs.map(context.graphIdToName)`. */
  function DisplayNames(graphs: seq<string>, graphIdToName: string -> string): (r: seq<string>)
    ensures |r| == |graphs|
    ensures forall i :: 0 <= i < |graphs| ==> r[i] == graphIdToName(graphs[i])
  {
    seq(|graphs|, i requires 0 <= i < |graphs| => graphIdToName(graphs[i]))
  }

  /** The plural suffix of `subgraph`: present exactly when the group has more than one subgraph. */
  function Plural(graphs: seq<string>): string
  {
    if |graphs| > 1 then "s" else ""
  }

  /** One group of an object-field argument message: names joined by `", "` inside quotes. */
  function FieldGroupText(g: TypeGroup, graphIdToName: string -> string): string
  {
    "type " + Quoted(g.typ) + " in subgraph" + Plural(g.graphs) + " "
      + Quoted(Join(DisplayNames(g.graphs, graphIdToName), "\", \""))
  }

  /** One group of a directive argument message: names listed by `joinItems`. */
  function DirectiveGroupText(g: TypeGroup, graphIdToName: string -> string): string
  {
    "type " + Quoted(g.typ) + " in subgraph" + Plural(g.graphs) + " "
      + JoinItems(DisplayNames(g.graphs, graphIdToName))
  }

  function FieldGroupTexts(groups: seq<TypeGroup>, graphIdToName: string -> string): (r: seq<string>)
    ensures |r| == |groups|
    ensures forall i :: 0 <= i < |groups| ==> r[i] == FieldGroupText(groups[i], graphIdToName)
  {
    seq(|groups|, i requires 0 <= i < |groups| => FieldGroupText(groups[i], graphIdToName))
  }

  function DirectiveGroupTexts(groups: seq<TypeGroup>, graphIdToName: string -> string): (r: seq<string>)
    ensures |r| == |groups|
    ensures forall i :: 0 <= i < |groups| ==> r[i] == DirectiveGroupText(groups[i], graphIdToName)
  {
    seq(|groups|, i requires 0 <= i < |groups| => DirectiveGroupText(groups[i], graphIdToName))
  }

  /** The sentence shared by both messages, after the argument's coordinate. */
  function Incompatible(coordinate: string): string
  {
    "Type of argument " + Quoted(coordinate) + " is incompatible across subgraphs: it has "
  }

  /**
   * The object-field argument message: `first but second`, then ` and ` and
   * the remaining groups joined by ` and ` when there are any.
   */
  function FieldArgMessage(typeName: string, fieldName: string, argName: string, groups: seq<string>): string
    requires |groups| >= 2
  {
    var rest := groups[2..];
    Incompatible(typeName + "." + fieldName + "(" + argName + ":)")
      + groups[0] + " but " + groups[1] + (if |rest| > 0 then " and " + Join(rest, " and ") else "")
  }

  /**
   * The directive argument message: `first but` and the remaining groups
   * joined by ` and `. With no groups at all, JavaScript's destructuring
   * leaves `first` undefined, which the template prints as `undefined`.
   */
  function DirectiveArgMessage(directiveName: string, argName: string, groups: seq<string>): string
  {
    var first := if groups == [] then "undefined" else groups[0];
    var rest := if groups == [] then [] else groups[1..];
    Incompatible("@" + directiveName + "(" + argName + ":)") + first + " but " + Join(rest, " and ")
  }

  // ---------------------------------------------------------------------
  // The decisions, as functions of the inputs

  /** Two entries of `decls` declare different types. */
  predicate HasTwoTypes(decls: seq<Decl>)
  {
    exists i, j | 0 <= i < |decls| && 0 <= j < |decls| :: decls[i].typ != decls[j].typ
  }

  /**
   * The error `ObjectTypeFieldArg` reports for an argument of field
   * `typeName.fieldName`: one exactly when two subgraphs' normalised types
   * differ.
   */
  function ObjectTypeFieldArgError(typeName: string, fieldName: string, arg: ArgState,
                                   graphIdToName: string -> string): (r: Option<ValidationError>)
    ensures r.Some? <==> HasTwoTypes(NormalizeAll(arg.byGraph, arg.typ))
    ensures r.Some? ==> r.value.code == MismatchCode
  {
    var groups := GroupByType(NormalizeAll(arg.byGraph, arg.typ));
    GroupCount(NormalizeAll(arg.byGraph, arg.typ));
    if |groups| > 1 then
      Some(ValidationError(FieldArgMessage(typeName, fieldName, arg.name, FieldGroupTexts(groups, graphIdToName)), MismatchCode))
    else None
  }

  /**
   * The error `DirectiveFieldArg` reports: none for a non-executable
   * directive or one not declared in every subgraph; otherwise one exactly
   * when the raw types do not form a single group (two subgraphs differ, or
   * no subgraph declares the argument at all).
   */
  function DirectiveFieldArgError(directive: DirectiveState, arg: ArgState, subgraphCount: nat,
                                  graphIdToName: string -> string): (r: Option<ValidationError>)
    ensures r.Some? <==>
      directive.isExecutable && |arg.byGraph| == subgraphCount && (arg.byGraph == [] || HasTwoTypes(arg.byGraph))
    ensures r.Some? ==> r.value.code == MismatchCode
  {
    if !directive.isExecutable then None
    else if |arg.byGraph| != subgraphCount then None
    else
      var groups := GroupByType(arg.byGraph);
      GroupCount(arg.byGraph);
      if |groups| == 1 then None
      else Some(ValidationError(DirectiveArgMessage(directive.name, arg.name, DirectiveGroupTexts(groups, graphIdToName)), MismatchCode))
  }

  // ---------------------------------------------------------------------
  // The callbacks, as the source runs them

  /**
   * The `forEach` of `ObjectTypeFieldArg`: each subgraph's normalised type
   * is looked up in an insertion-ordered map; the subgraph is pushed onto an
   * existing array or starts a new one.
   */
  method CollectNormalizedGroups(byGraph: seq<Decl>, supergraphType: string) returns (groups: seq<TypeGroup>)
    ensures groups == GroupByType(NormalizeAll(byGraph, supergraphType))
  {
    var order: seq<string> := [];
    var typeToGraphs: map<string, seq<string>> := map[];
    ghost var normalized := NormalizeAll(byGraph, supergraphType);
    for i := 0 to |byGraph|
      invariant OrderedKeys(order, typeToGraphs)
      invariant Entries(order, typeToGraphs) == GroupByType(normalized[..i])
    {
      var graphName := byGraph[i].graph;
      var normalizedOutputType := Normalize(byGraph[i].typ, supergraphType);
      assert normalized[..i + 1][..i] == normalized[..i];
      assert normalized[i] == Decl(graphName, normalizedOutputType);
      if normalizedOutputType in typeToGraphs {
        PushExisting(order, typeToGraphs, graphName, normalizedOutputType);
        typeToGraphs := typeToGraphs[normalizedOutputType := typeToGraphs[normalizedOutputType] + [graphName]];
      } else {
        SetNew(order, typeToGraphs, graphName, normalizedOutputType);
        order := order + [normalizedOutputType];
        typeToGraphs := typeToGraphs[normalizedOutputType := [graphName]];
      }
    }
    assert normalized[..|byGraph|] == normalized;
    groups := Entries(order, typeToGraphs);
  }

  /**
   * `collectSubgraphType`: the set of the type's subgraphs is created when
   * missing and the subgraph added to it. Adding a subgraph already in the
   * set changes nothing; otherwise the subgraph is recorded in its group.
   */
  method CollectSubgraphType(order: seq<string>, typesPerSubgraph: map<string, seq<string>>,
                             typeName: string, subgraphName: string)
    returns (order': seq<string>, typesPerSubgraph': map<string, seq<string>>)
    requires OrderedKeys(order, typesPerSubgraph)
    ensures OrderedKeys(order', typesPerSubgraph')
    ensures typeName in typesPerSubgraph && subgraphName in typesPerSubgraph[typeName] ==>
      order' == order && typesPerSubgraph' == typesPerSubgraph
    ensures !(typeName in typesPerSubgraph && subgraphName in typesPerSubgraph[typeName]) ==>
      Entries(order', typesPerSubgraph') == AddToGroups(Entries(order, typesPerSubgraph), subgraphName, typeName)
  {
    order', typesPerSubgraph' := order, typesPerSubgraph;
    if typeName !in typesPerSubgraph' {
      order' := order' + [typeName];
      typesPerSubgraph' := typesPerSubgraph'[typeName := []];
    }
    var subgraphNames := typesPerSubgraph'[typeName];
    if subgraphName !in subgraphNames {
      subgraphNames := subgraphNames + [subgraphName];
    }
    typesPerSubgraph' := typesPerSubgraph'[typeName := subgraphNames];
    if typeName !in typesPerSubgraph {
      assert subgraphNames == [subgraphName];
      assert typesPerSubgraph' == typesPerSubgraph[typeName := [subgraphName]];
      SetNew(order, typesPerSubgraph, subgraphName, typeName);
    } else if subgraphName !in typesPerSubgraph[typeName] {
      PushExisting(order, typesPerSubgraph, subgraphName, typeName);
    } else {
      assert typesPerSubgraph' == typesPerSubgraph;
    }
  }

  /** No subgraph before position `i` has the id of the subgraph at `i`. */
  lemma FreshGraph(byGraph: seq<Decl>, i: int, t: string)
    requires DistinctGraphs(byGraph) && 0 <= i < |byGraph|
    ensures byGraph[i].graph !in GraphsOfType(byGraph[..i], t)
  {
    GraphsOfTypeMembers(byGraph[..i], t);
    assert forall k | 0 <= k < i :: byGraph[..i][k].graph != byGraph[i].graph;
  }

  /** The `forEach` of `DirectiveFieldArg`: raw types collected with `collectSubgraphType`. */
  method CollectRawGroups(byGraph: seq<Decl>) returns (groups: seq<TypeGroup>)
    requires DistinctGraphs(byGraph)
    ensures groups == GroupByType(byGraph)
  {
    var order: seq<string> := [];
    var typesPerSubgraph: map<string, seq<string>> := map[];
    for i := 0 to |byGraph|
      invariant OrderedKeys(order, typesPerSubgraph)
      invariant Entries(order, typesPerSubgraph) == GroupByType(byGraph[..i])
    {
      var decl := byGraph[i];
      assert byGraph[..i + 1][..i] == byGraph[..i];
      if decl.typ in typesPerSubgraph {
        EntryIsGroup(order, typesPerSubgraph, byGraph[..i], decl.typ);
        FreshGraph(byGraph, i, decl.typ);
      }
      order, typesPerSubgraph := CollectSubgraphType(order, typesPerSubgraph, decl.typ, decl.graph);
    }
    assert byGraph[..|byGraph|] == byGraph;
    groups := Entries(order, typesPerSubgraph);
  }

  /** `ObjectTypeFieldArg`: reports the error of `ObjectTypeFieldArgError`, if any, and nothing else. */
  method ObjectTypeFieldArg(context: Context, typeName: string, fieldName: string, arg: ArgState)
    modifies context
    ensures context.errors == old(context.errors) + ToSeq(ObjectTypeFieldArgError(typeName, fieldName, arg, context.graphIdToName))
  {
    var groups := CollectNormalizedGroups(arg.byGraph, arg.typ);
    if |groups| > 1 {
      var texts := FieldGroupTexts(groups, context.graphIdToName);
      context.ReportError(ValidationError(FieldArgMessage(typeName, fieldName, arg.name, texts), MismatchCode));
    }
  }

  /** `DirectiveFieldArg`: reports the error of `DirectiveFieldArgError`, if any, and nothing else. */
  method DirectiveFieldArg(context: Context, directive: DirectiveState, arg: ArgState)
    requires DistinctGraphs(arg.byGraph)
    modifies context
    ensures context.errors
      == old(context.errors) + ToSeq(DirectiveFieldArgError(directive, arg, context.subgraphCount, context.graphIdToName))
  {
    if directive.isExecutable == false {
      return;
    }
    if |arg.byGraph| != context.subgraphCount {
      return;
    }
    var groups := CollectRawGroups(arg.byGraph);
    if |groups| == 1 {
      return;
    }
    var texts := DirectiveGroupTexts(groups, context.graphIdToName);
    context.ReportError(ValidationError(DirectiveArgMessage(directive.name, arg.name, texts), MismatchCode));
  }

  // ---------------------------------------------------------------------
  // Properties

  /**
   * The groups `ObjectTypeFieldArg` builds partition the subgraphs: each
   * subgraph is in the group keyed by its normalised type and in no other.
   */
  lemma NormalizedGroupsPartition(arg: ArgState)
    requires DistinctGraphs(arg.byGraph)
    ensures forall k | 0 <= k < |arg.byGraph| ::
      Normalize(arg.byGraph[k].typ, arg.typ) in KeysOf(GroupByType(NormalizeAll(arg.byGraph, arg.typ)))
    ensures forall k, i | 0 <= k < |arg.byGraph| && 0 <= i < |GroupByType(NormalizeAll(arg.byGraph, arg.typ))| ::
      (arg.byGraph[k].graph in GroupByType(NormalizeAll(arg.byGraph, arg.typ))[i].graphs
       <==> GroupByType(NormalizeAll(arg.byGraph, arg.typ))[i].typ == Normalize(arg.byGraph[k].typ, arg.typ))
  {
    var normalized := NormalizeAll(arg.byGraph, arg.typ);
    assert DistinctGraphs(normalized);
    ExactlyOneGroup(normalized);
  }

  /**
   * Nullable subsumption: when the supergraph type is non-null and every
   * subgraph's type has its base, nothing is reported for an object-field
   * argument, however the subgraphs mix `T` and `T!`.
   */
  lemma NullableSubsumption(typeName: string, fieldName: string, arg: ArgState, graphIdToName: string -> string)
    requires IsNonNull(arg.typ)
    requires forall k | 0 <= k < |arg.byGraph| :: SameBase(arg.byGraph[k].typ, arg.typ)
    ensures ObjectTypeFieldArgError(typeName, fieldName, arg, graphIdToName) == None
  {
    var normalized := NormalizeAll(arg.byGraph, arg.typ);
    forall i | 0 <= i < |normalized| ensures normalized[i].typ == arg.typ {
      assert SameBase(arg.byGraph[i].typ, arg.typ);
    }
  }

  /**
   * Directive arguments are compared without normalisation: `Int` in one
   * subgraph and `Int!` in the other is reported for an executable directive
   * declared in both, while the same pair on an object-field argument whose
   * supergraph type is `Int!` is not.
   */
  lemma NullabilityDifferenceOnlyReportedForDirectives(directiveName: string, typeName: string, fieldName: string,
                                                      argName: string, g1: string, g2: string,
                                                      graphIdToName: string -> string)
    requires g1 != g2
    ensures DirectiveFieldArgError(DirectiveState(directiveName, true),
      ArgState(argName, "Int!", [Decl(g1, "Int"), Decl(g2, "Int!")]), 2, graphIdToName).Some?
    ensures ObjectTypeFieldArgError(typeName, fieldName,
      ArgState(argName, "Int!", [Decl(g1, "Int"), Decl(g2, "Int!")]), graphIdToName) == None
  {
    var byGraph := [Decl(g1, "Int"), Decl(g2, "Int!")];
    assert byGraph[0].typ != byGraph[1].typ;
    NullableSubsumption(typeName, fieldName, ArgState(argName, "Int!", byGraph), graphIdToName);
  }

  /**
   * `subgraph${graphs.length > 1 ? "s" : ""}`: a group's text, in either
   * message, reads `type "<T>" in subgraphs ` exactly when the group has
   * more than one subgraph.
   */
  lemma PluralSubgraphs(g: TypeGroup, graphIdToName: string -> string)
    ensures "type " + Quoted(g.typ) + " in subgraphs " <= FieldGroupText(g, graphIdToName) <==> |g.graphs| > 1
    ensures "type " + Quoted(g.typ) + " in subgraphs " <= DirectiveGroupText(g, graphIdToName) <==> |g.graphs| > 1
  {
    var head := "type " + Quoted(g.typ) + " in subgraph";
    assert "type " + Quoted(g.typ) + " in subgraphs " == head + "s ";
    var names := DisplayNames(g.graphs, graphIdToName);
    PluralPrefix(head, Plural(g.graphs), Quoted(Join(names, "\", \"")));
    PluralPrefix(head, Plural(g.graphs), JoinItems(names));
  }

  /** Behind a common head, `s ` is a prefix exactly when the suffix chosen is `s`. */
  lemma PluralPrefix(head: string, suffix: string, tail: string)
    requires suffix == "s" || suffix == ""
    ensures head + "s " <= head + suffix + " " + tail <==> suffix == "s"
  {
    if suffix == "" {
      assert (head + "s ")[|head|] != (head + suffix + " " + tail)[|head|];
    } else {
      assert head + suffix + " " + tail == (head + "s ") + tail;
    }
  }

  /** A group of one subgraph reads `type "<T>" in subgraph "<name>"`, without the plural `s`. */
  lemma SingleSubgraphGroup(t: string, g: string, graphIdToName: string -> string)
    ensures FieldGroupText(TypeGroup(t, [g]), graphIdToName)
      == "type " + Quoted(t) + " in subgraph " + Quoted(graphIdToName(g))
  {
    assert DisplayNames([g], graphIdToName) == [graphIdToName(g)];
  }

  /**
   * Two subgraphs whose normalised types differ give one group each, in
   * declaration order, and the message `first but second`.
   */
  lemma TwoSubgraphsDisagree(typeName: string, fieldName: string, arg: ArgState, graphIdToName: string -> string)
    requires |arg.byGraph| == 2
    requires Normalize(arg.byGraph[0].typ, arg.typ) != Normalize(arg.byGraph[1].typ, arg.typ)
    ensures ObjectTypeFieldArgError(typeName, fieldName, arg, graphIdToName)
      == Some(ValidationError(
        Incompatible(typeName + "." + fieldName + "(" + arg.name + ":)")
          + FieldGroupText(TypeGroup(Normalize(arg.byGraph[0].typ, arg.typ), [arg.byGraph[0].graph]), graphIdToName)
          + " but "
          + FieldGroupText(TypeGroup(Normalize(arg.byGraph[1].typ, arg.typ), [arg.byGraph[1].graph]), graphIdToName),
        MismatchCode))
  {
    var normalized := NormalizeAll(arg.byGraph, arg.typ);
    TwoDistinctTypes(normalized);
    var texts := FieldGroupTexts(GroupByType(normalized), graphIdToName);
    assert ObjectTypeFieldArgError(typeName, fieldName, arg, graphIdToName)
      == Some(ValidationError(FieldArgMessage(typeName, fieldName, arg.name, texts), MismatchCode));
    TwoGroupMessage(typeName, fieldName, arg.name, texts);
  }

  /** With exactly two group texts the object-field message is `first but second`. */
  lemma TwoGroupMessage(typeName: string, fieldName: string, argName: string, texts: seq<string>)
    requires |texts| == 2
    ensures FieldArgMessage(typeName, fieldName, argName, texts)
      == Incompatible(typeName + "." + fieldName + "(" + argName + ":)") + texts[0] + " but " + texts[1]
  {
    assert texts[2..] == [];
  }

  /**
   * Two subgraphs whose local types have different bases are always
   * reported on an object-field argument, whatever the supergraph type.
   */
  lemma DifferentBasesAlwaysReported(typeName: string, fieldName: string, arg: ArgState,
                                     graphIdToName: string -> string, k1: int, k2: int)
    requires 0 <= k1 < |arg.byGraph| && 0 <= k2 < |arg.byGraph|
    requires StripNonNull(arg.byGraph[k1].typ) != StripNonNull(arg.byGraph[k2].typ)
    ensures ObjectTypeFieldArgError(typeName, fieldName, arg, graphIdToName).Some?
    ensures ObjectTypeFieldArgError(typeName, fieldName, arg, graphIdToName).value.code == MismatchCode
  {
    DifferentBasesStayApart(arg.byGraph[k1].typ, arg.byGraph[k2].typ, arg.typ);
    var normalized := NormalizeAll(arg.byGraph, arg.typ);
    assert normalized[k1].typ != normalized[k2].typ;
  }

  /**
   * `Int` against `String` is a mismatch on an object-field argument for
   * every supergraph type, and the message names both subgraphs by display
   * name, each under its normalised type.
   */
  lemma IntVersusStringNamesBothSubgraphs(typeName: string, fieldName: string, argName: string, supergraphType: string,
                                          g1: string, g2: string, graphIdToName: string -> string)
    requires g1 != g2
    ensures ObjectTypeFieldArgError(typeName, fieldName,
      ArgState(argName, supergraphType, [Decl(g1, "Int"), Decl(g2, "String")]), graphIdToName)
      == Some(ValidationError(
        Incompatible(typeName + "." + fieldName + "(" + argName + ":)")
          + ("type " + Quoted(Normalize("Int", supergraphType)) + " in subgraph " + Quoted(graphIdToName(g1)))
          + " but "
          + ("type " + Quoted(Normalize("String", supergraphType)) + " in subgraph " + Quoted(graphIdToName(g2))),
        MismatchCode))
  {
    var arg := ArgState(argName, supergraphType, [Decl(g1, "Int"), Decl(g2, "String")]);
    assert arg.byGraph[0] == Decl(g1, "Int") && arg.byGraph[1] == Decl(g2, "String");
    assert StripNonNull("Int") == "Int" && StripNonNull("String") == "String";
    DifferentBasesStayApart("Int", "String", supergraphType);
    TwoSubgraphsDisagree(typeName, fieldName, arg, graphIdToName);
    SingleSubgraphGroup(Normalize("Int", supergraphType), g1, graphIdToName);
    SingleSubgraphGroup(Normalize("String", supergraphType), g2, graphIdToName);
  }

  /**
   * Both messages read `it has <first> but <second>`, with any further
   * groups joined by ` and `.
   */
  lemma MessageSentence(typeName: string, fieldName: string, directiveName: string, argName: string, groups: seq<string>)
    requires |groups| >= 2
    ensures FieldArgMessage(typeName, fieldName, argName, groups)
      == Incompatible(typeName + "." + fieldName + "(" + argName + ":)") + groups[0] + " but " + Join(groups[1..], " and ")
    ensures DirectiveArgMessage(directiveName, argName, groups)
      == Incompatible("@" + directiveName + "(" + argName + ":)") + groups[0] + " but " + Join(groups[1..], " and ")
  {
    var tail := groups[1..];
    assert tail[1..] == groups[2..];
    if |groups| > 2 {
      assert Join(tail, " and ") == groups[1] + " and " + Join(groups[2..], " and ");
    }
  }

  /**
   * An object-field group names its subgraphs by display name, each quoted,
   * separated by `, `.
   */
  lemma FieldGroupNames(g: TypeGroup, graphIdToName: string -> string)
    requires g.graphs != []
    ensures FieldGroupText(g, graphIdToName)
      == "type " + Quoted(g.typ) + " in subgraph" + Plural(g.graphs) + " "
         + Join(QuoteAll(DisplayNames(g.graphs, graphIdToName)), ", ")
  {
    QuotedJoin(DisplayNames(g.graphs, graphIdToName));
  }

  /**
   * A directive group of one subgraph reads `type "<T>" in subgraph "a"`, and
   * one of two subgraphs reads `type "<T>" in subgraphs "a" and "b"`.
   */
  lemma DirectiveSmallGroups(t: string, a: string, b: string, graphIdToName: string -> string)
    ensures DirectiveGroupText(TypeGroup(t, [a]), graphIdToName)
      == "type " + Quoted(t) + " in subgraph " + Quoted(graphIdToName(a))
    ensures DirectiveGroupText(TypeGroup(t, [a, b]), graphIdToName)
      == "type " + Quoted(t) + " in subgraphs " + Quoted(graphIdToName(a)) + " and " + Quoted(graphIdToName(b))
  {
    assert DisplayNames([a], graphIdToName) == [graphIdToName(a)];
    assert DisplayNames([a, b], graphIdToName) == [graphIdToName(a), graphIdToName(b)];
  }

  /**
   * A directive group of three or more subgraphs names them with an Oxford
   * comma: all but the last quoted and separated by `, `, then `, and ` and
   * the last.
   */
  lemma DirectiveGroupNames(g: TypeGroup, graphIdToName: string -> string)
    requires |g.graphs| >= 3
    ensures DirectiveGroupText(g, graphIdToName)
      == "type " + Quoted(g.typ) + " in subgraphs "
         + Join(QuoteAll(DisplayNames(g.graphs, graphIdToName)[..|g.graphs| - 1]), ", ")
         + ", and " + Quoted(graphIdToName(g.graphs[|g.graphs| - 1]))
  {
    var names := DisplayNames(g.graphs, graphIdToName);
    assert Plural(g.graphs) == "s";
    assert names[|names| - 1] == graphIdToName(g.graphs[|g.graphs| - 1]);
    OxfordComma(names);
  }
}
