/**
  * `generateMermaid`: the Mermaid ER diagram of an extracted models map, as
  * a sequence of lines. Relation hints are gathered from the fields whose
  * type names a model, collapsed into two key sets, and every ordered pair of
  * distinct models is classified; the entity blocks list the other fields.
  */
module Mermaid {
  import opened Wrappers
  import opened OrderedMap
  import opened Extract
  import opened TypeMap
  import opened Cardinality

  /** The models map produced by extraction. */
  type Models = seq<Entry<Model>>

  /** `isModelType(typeName, models)`: the type names a model of the map. */
  predicate IsModelType(typeName: string, models: Models) {
    Has(models, typeName)
  }

  // ---------------------------------------------------------------------------
  // Relation hints

  /** Model `from` has a field of type `to`, a list field when `fromIsArray`. */
  datatype Hint = Hint(from: string, to: string, fromIsArray: bool)

  /** The hints of one model's fields, in field order. */
  function FieldHints(models: Models, owner: string, fields: seq<Field>): (hs: seq<Hint>)
    ensures forall h :: h in hs <==>
      exists f :: f in fields && IsModelType(f.fieldType, models) && h == Hint(owner, f.fieldType, f.isArray)
  {
    if |fields| == 0 then []
    else
      var f := fields[0];
      var rest := FieldHints(models, owner, fields[1..]);
      assert fields == [f] + fields[1..];
      if IsModelType(f.fieldType, models) then [Hint(owner, f.fieldType, f.isArray)] + rest else rest
  }

  /** `relationHints`: the hints of `entries`, models in map order, fields in field order. */
  function Hints(models: Models, entries: Models): (hs: seq<Hint>)
    ensures forall h :: h in hs <==>
      exists i, f :: 0 <= i < |entries| && f in entries[i].value.fields && IsModelType(f.fieldType, models)
        && h == Hint(entries[i].key, f.fieldType, f.isArray)
  {
    if |entries| == 0 then []
    else
      var rest := Hints(models, entries[1..]);
      assert forall i :: 0 < i < |entries| ==> entries[1..][i - 1] == entries[i];
      FieldHints(models, entries[0].key, entries[0].value.fields) + rest
  }

  /** The key `${from}->${to}` under which a hint is recorded. */
  function HintKey(from: string, to: string): string {
    from + "->" + to
  }

  /** `arrMap` and `scalarMap`: which keys have an array hint, which a scalar one. */
  datatype HintSets = HintSets(arrays: set<string>, scalars: set<string>)

  /** The loop over `relationHints`: presence only, any number of hints per key. */
  function CollectHints(hints: seq<Hint>): (s: HintSets)
    ensures forall k :: k in s.arrays <==>
      exists h :: h in hints && h.fromIsArray && HintKey(h.from, h.to) == k
    ensures forall k :: k in s.scalars <==>
      exists h :: h in hints && !h.fromIsArray && HintKey(h.from, h.to) == k
  {
    if |hints| == 0 then HintSets({}, {})
    else
      var pre := hints[..|hints| - 1];
      var h := hints[|hints| - 1];
      var prev := CollectHints(pre);
      assert hints == pre + [h];
      var k := HintKey(h.from, h.to);
      if h.fromIsArray then prev.(arrays := prev.arrays + {k})
      else prev.(scalars := prev.scalars + {k})
  }

  // ---------------------------------------------------------------------------
  // Edges

  /** The label of the ordered pair (a, b), from the four hint lookups. */
  function Label(sets: HintSets, a: string, b: string): Option<Card> {
    Classify(HintKey(a, b) in sets.arrays, HintKey(b, a) in sets.arrays,
             HintKey(a, b) in sets.scalars, HintKey(b, a) in sets.scalars)
  }

  /** One `addEdge(a, b, relation)` call. */
  datatype Edge = Edge(from: string, card: Card, to: string)

  /** The inner loop: model `a` against each of `bs` in order, self pair skipped. */
  function EdgeRow(sets: HintSets, a: string, bs: seq<string>): seq<Edge> {
    if |bs| == 0 then []
    else
      var prev := EdgeRow(sets, a, bs[..|bs| - 1]);
      var b := bs[|bs| - 1];
      if a == b then prev
      else match Label(sets, a, b)
        case None => prev
        case Some(c) => prev + [Edge(a, c, b)]
  }

  /** The outer loop: each of `outer` in order, against all of `inner`. */
  function Edges(sets: HintSets, outer: seq<string>, inner: seq<string>): seq<Edge> {
    if |outer| == 0 then []
    else Edges(sets, outer[..|outer| - 1], inner) + EdgeRow(sets, outer[|outer| - 1], inner)
  }

  /**
    * The inner loop emits an edge to `b` iff `b` is among `bs`, differs from
    * `a`, and the pair classifies, with that label.
    */
  lemma {:induction false} EdgeRowMembers(sets: HintSets, a: string, bs: seq<string>)
    ensures forall e :: e in EdgeRow(sets, a, bs) <==>
      e.from == a && e.to in bs && e.to != a && Label(sets, a, e.to) == Some(e.card)
  {
    if |bs| > 0 {
      var pre := bs[..|bs| - 1];
      EdgeRowMembers(sets, a, pre);
      assert bs == pre + [bs[|bs| - 1]];
    }
  }

  /**
    * The two loops emit an edge iff its owner is among `outer`, its target
    * among `inner`, the two differ, and the pair classifies to its label.
    */
  lemma {:induction false} EdgesMembers(sets: HintSets, outer: seq<string>, inner: seq<string>)
    ensures forall e :: e in Edges(sets, outer, inner) <==>
      e.from in outer && e.to in inner && e.from != e.to && Label(sets, e.from, e.to) == Some(e.card)
  {
    if |outer| > 0 {
      var pre := outer[..|outer| - 1];
      EdgesMembers(sets, pre, inner);
      EdgeRowMembers(sets, outer[|outer| - 1], inner);
      assert outer == pre + [outer[|outer| - 1]];
    }
  }

  /** `  ${a} ${relation} ${b} : relates` */
  function EdgeLine(e: Edge): string {
    "  " + e.from + " " + Notation(e.card) + " " + e.to + " : relates"
  }

  /** The lines of `es`, one per edge, in order, with no deduplication. */
  function EdgeLines(es: seq<Edge>): seq<string> {
    seq(|es|, i requires 0 <= i < |es| => EdgeLine(es[i]))
  }

  /** The dedup key `${a}|${b}|${relation}` of `addEdge`. */
  function EdgeKey(a: string, b: string, relation: string): string {
    a + "|" + b + "|" + relation
  }

  /** The key `addEdge` records for an edge. */
  function KeyOf(e: Edge): string {
    EdgeKey(e.from, e.to, Notation(e.card))
  }

  /** The keys of a list of edges. */
  ghost function KeysOf(es: seq<Edge>): set<string> {
    set e | e in es :: KeyOf(e)
  }

  /** The lines pushed so far and the `emitted` set of `generateMermaid`. */
  datatype Emission = Emission(lines: seq<string>, emitted: set<string>)

  /** `addEdge(a, b, relation)`: a recorded key is skipped, a new one pushes its line and is recorded. */
  function AddEdge(s: Emission, e: Edge): Emission {
    if KeyOf(e) in s.emitted then s
    else Emission(s.lines + [EdgeLine(e)], s.emitted + {KeyOf(e)})
  }

  /** `addEdge` called on each of `es` in order, starting from `s`. */
  function EmitFrom(s: Emission, es: seq<Edge>): Emission {
    if |es| == 0 then s
    else AddEdge(EmitFrom(s, es[..|es| - 1]), es[|es| - 1])
  }

  // ---------------------------------------------------------------------------
  // Entity blocks

  /** ` PK` for an id field, else ` UK` for a unique field, else nothing. */
  function Marker(f: Field): (m: string)
    ensures m == " PK" <==> f.isId
    ensures m == " UK" <==> !f.isId && f.isUnique
    ensures m == "" <==> !f.isId && !f.isUnique
  {
    if f.isId then " PK" else if f.isUnique then " UK" else ""
  }

  /** The mapped type, with `[]` appended exactly for list fields. */
  function TypeText(f: Field): (t: string)
    ensures |MermaidType(f.fieldType)| <= |t| && t[..|MermaidType(f.fieldType)|] == MermaidType(f.fieldType)
    ensures f.isArray <==> |t| > |MermaidType(f.fieldType)|
    ensures f.isArray ==> |t| == |MermaidType(f.fieldType)| + 2 && t[|t| - 2..] == "[]"
  {
    MermaidType(f.fieldType) + (if f.isArray then "[]" else "")
  }

  /** `    ${type} ${f.name}${marker}` */
  function FieldLine(f: Field): string {
    "    " + TypeText(f) + " " + f.name + Marker(f)
  }

  /**
    * The property lines of one model, skipping the fields whose type is a
    * model name. The bound is all its own contract says;
    * `MermaidProofs.FieldLinesMembers` states which lines appear and
    * `MermaidProofs.FieldLinesConcat` that they keep field order.
    */
  function FieldLines(models: Models, fields: seq<Field>): (ls: seq<string>)
    ensures |ls| <= |fields|
  {
    if |fields| == 0 then []
    else if IsModelType(fields[0].fieldType, models) then FieldLines(models, fields[1..])
    else [FieldLine(fields[0])] + FieldLines(models, fields[1..])
  }

  /** `  ${modelName} {`, the property lines, `  }` */
  function Block(models: Models, e: Entry<Model>): seq<string> {
    ["  " + e.key + " {"] + FieldLines(models, e.value.fields) + ["  }"]
  }

  /** The blocks of `entries`, in map order. */
  function EntityLines(models: Models, entries: Models): seq<string> {
    if |entries| == 0 then []
    else Block(models, entries[0]) + EntityLines(models, entries[1..])
  }

  // ---------------------------------------------------------------------------
  // The diagram

  /** The hint sets of a models map. */
  function HintSetsOf(models: Models): HintSets {
    CollectHints(Hints(models, models))
  }

  /** The edges of a models map: every ordered pair of distinct model names. */
  function EdgesOf(models: Models): seq<Edge> {
    Edges(HintSetsOf(models), Keys(models), Keys(models))
  }

  /** `generateMermaid(models)`, before the lines are joined. */
  function GenerateMermaid(models: Models): seq<string> {
    ["erDiagram"] + EntityLines(models, models) + EmitFrom(Emission([], {}), EdgesOf(models)).lines
  }
}
