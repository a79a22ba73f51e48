/**
  * What the diagram says about the models map: which edges appear, with
  * which label, in which order, and how the entity blocks are laid out.
  */
module MermaidProofs {
  import opened Wrappers
  import opened Seqs
  import opened OrderedMap
  import opened PrismaAst
  import opened Extract
  import opened Cardinality
  import opened Mermaid

  /**
    * A name holding neither `-` nor `|`, as every Prisma identifier does; the
    * string keys `${from}->${to}` and `${a}|${b}|${relation}` of such names
    * can be cut back into their parts.
    */
  predicate Separable(name: string) {
    '-' !in name && '|' !in name
  }

  predicate SeparableNames(models: Models) {
    forall i :: 0 <= i < |models| ==> Separable(models[i].key)
  }

  /** Hint keys of separable owners determine owner and target. */
  lemma HintKeyInjective(a: string, b: string, a': string, b': string)
    requires Separable(a) && Separable(a')
    ensures HintKey(a, b) == HintKey(a', b') ==> a == a' && b == b'
  {
    if HintKey(a, b) == HintKey(a', b') {
      assert HintKey(a, b) == a + ['-'] + (">" + b);
      assert HintKey(a', b') == a' + ['-'] + (">" + b');
      SplitAtSeparator(a, ">" + b, a', ">" + b', '-');
      assert b == (">" + b)[1..];
      assert b' == (">" + b')[1..];
    }
  }

  /** Model `a` declares a field of type `b`, a list field or a single one as `isArray` says. */
  ghost predicate RelationField(models: Models, a: string, b: string, isArray: bool)
    requires Has(models, a)
  {
    exists f :: f in Get(models, a).fields && f.fieldType == b && f.isArray == isArray
  }

  /** A key of the map is separable when all of them are. */
  lemma KeySeparable(models: Models, a: string)
    requires SeparableNames(models) && Has(models, a)
    ensures Separable(a)
  {
  }

  /**
    * The hint sets record exactly the relation fields: the key `a->b` is in
    * the array set iff model `a` has a list field of type `b`, and in the
    * scalar set iff it has a single field of type `b`.
    */
  lemma HintSetsMeaning(models: Models, a: string, b: string, isArray: bool)
    requires Valid(models) && SeparableNames(models) && Has(models, a) && Has(models, b)
    ensures var s := HintSetsOf(models);
      HintKey(a, b) in (if isArray then s.arrays else s.scalars) <==> RelationField(models, a, b, isArray)
  {
    var s := HintSetsOf(models);
    var hs := Hints(models, models);
    var set_ := if isArray then s.arrays else s.scalars;
    KeySeparable(models, a);
    if HintKey(a, b) in set_ {
      var h :| h in hs && h.fromIsArray == isArray && HintKey(h.from, h.to) == HintKey(a, b);
      var i, f :| 0 <= i < |models| && f in models[i].value.fields && IsModelType(f.fieldType, models)
        && h == Hint(models[i].key, f.fieldType, f.isArray);
      HintKeyInjective(h.from, h.to, a, b);
      GetAt(models, i);
    }
    if RelationField(models, a, b, isArray) {
      var f :| f in Get(models, a).fields && f.fieldType == b && f.isArray == isArray;
      var i := IndexOf(Keys(models), a);
      assert models[i].key == a;
      var h := Hint(a, b, isArray);
      assert h in hs;
    }
  }

  /** The label of an ordered pair read off the two models' fields. */
  ghost function FieldLabel(models: Models, a: string, b: string): Option<Card>
    requires Has(models, a) && Has(models, b)
  {
    Classify(RelationField(models, a, b, true), RelationField(models, b, a, true),
             RelationField(models, a, b, false), RelationField(models, b, a, false))
  }

  /**
    * An edge line `a c b` is emitted exactly for distinct models `a`, `b` of
    * the map whose fields classify to `c`: no self edges, and the label is
    * the first matching branch of the precedence.
    */
  lemma EdgeIffRelated(models: Models, a: string, b: string, c: Card)
    requires Valid(models) && SeparableNames(models)
    ensures Edge(a, c, b) in EdgesOf(models) <==>
      Has(models, a) && Has(models, b) && a != b && FieldLabel(models, a, b) == Some(c)
  {
    EdgesMembers(HintSetsOf(models), Keys(models), Keys(models));
    if Has(models, a) && Has(models, b) {
      HintSetsMeaning(models, a, b, true);
      HintSetsMeaning(models, b, a, true);
      HintSetsMeaning(models, a, b, false);
      HintSetsMeaning(models, b, a, false);
      assert Label(HintSetsOf(models), a, b) == FieldLabel(models, a, b);
    }
  }

  /** Model `a` declares some field, list or not, whose type is `b`. */
  ghost predicate References(models: Models, a: string, b: string)
    requires Has(models, a)
  {
    exists f :: f in Get(models, a).fields && f.fieldType == b
  }

  /**
    * The ordered pair (a, b) of distinct models gets an edge iff one of the two
    * references the other; no relation field in either direction, no edge.
    */
  lemma EdgeIffReference(models: Models, a: string, b: string)
    requires Valid(models) && SeparableNames(models) && Has(models, a) && Has(models, b) && a != b
    ensures (exists c :: Edge(a, c, b) in EdgesOf(models)) <==> References(models, a, b) || References(models, b, a)
  {
    if References(models, a, b) {
      var f :| f in Get(models, a).fields && f.fieldType == b;
      assert RelationField(models, a, b, f.isArray);
    }
    if References(models, b, a) {
      var f :| f in Get(models, b).fields && f.fieldType == a;
      assert RelationField(models, b, a, f.isArray);
    }
    var l := FieldLabel(models, a, b);
    if l.Some? {
      EdgeIffRelated(models, a, b, l.value);
    } else {
      forall c ensures Edge(a, c, b) !in EdgesOf(models) {
        EdgeIffRelated(models, a, b, c);
      }
    }
  }

  /**
    * Both orientations are emitted: when (a, b) gets label `c`, (b, a) gets
    * the mirrored label.
    */
  lemma EdgeMirror(models: Models, a: string, b: string, c: Card)
    requires Edge(a, c, b) in EdgesOf(models)
    ensures Edge(b, Mirror(c), a) in EdgesOf(models)
  {
    var s := HintSetsOf(models);
    EdgesMembers(s, Keys(models), Keys(models));
    ClassifyMirror(HintKey(a, b) in s.arrays, HintKey(b, a) in s.arrays,
                   HintKey(a, b) in s.scalars, HintKey(b, a) in s.scalars);
  }

  /**
    * A list field of `a` typed `b`, answered on `b`'s side by no list field
    * typed `a`, gives `a ||--o{ b` and, from the other side, `b }o--|| a`.
    */
  lemma ListReferenceEdges(models: Models, a: string, b: string)
    requires Valid(models) && SeparableNames(models) && Has(models, a) && Has(models, b) && a != b
    requires RelationField(models, a, b, true) && !RelationField(models, b, a, true)
    ensures Edge(a, OneToMany, b) in EdgesOf(models)
    ensures Edge(b, ManyToOne, a) in EdgesOf(models)
  {
    EdgeIffRelated(models, a, b, OneToMany);
    EdgeMirror(models, a, b, OneToMany);
  }

  /**
    * Two models holding list fields of each other give a many-to-many line in
    * each orientation: `a }o--o{ b` and `b }o--o{ a`.
    */
  lemma MutualListEdges(models: Models, a: string, b: string)
    requires Valid(models) && SeparableNames(models) && Has(models, a) && Has(models, b) && a != b
    requires RelationField(models, a, b, true) && RelationField(models, b, a, true)
    ensures Edge(a, ManyToMany, b) in EdgesOf(models)
    ensures Edge(b, ManyToMany, a) in EdgesOf(models)
  {
    EdgeIffRelated(models, a, b, ManyToMany);
    EdgeMirror(models, a, b, ManyToMany);
  }

  /** Position of a name in the key list (one past the end for other names). */
  function Pos(ks: seq<string>, x: string): nat {
    if x in ks then IndexOf(ks, x) else |ks|
  }

  /** `e` comes strictly before `e'` in outer-loop-then-inner-loop order. */
  predicate Before(ks: seq<string>, e: Edge, e': Edge) {
    Pos(ks, e.from) < Pos(ks, e'.from) || (Pos(ks, e.from) == Pos(ks, e'.from) && Pos(ks, e.to) < Pos(ks, e'.to))
  }

  predicate Ordered(ks: seq<string>, es: seq<Edge>) {
    forall p, q :: 0 <= p < q < |es| ==> Before(ks, es[p], es[q])
  }

  /** A member of `ks[..j]` sits before position `j`. */
  lemma PosInPrefix(ks: seq<string>, j: nat, x: string)
    requires j <= |ks| && x in ks[..j]
    ensures x in ks && Pos(ks, x) < j
  {
  }

  /** The inner loop over `ks[..j]` only reaches targets before position `j`. */
  lemma RowTargetsBefore(sets: HintSets, a: string, ks: seq<string>, j: nat)
    requires j <= |ks|
    ensures forall e :: e in EdgeRow(sets, a, ks[..j]) ==> e.from == a && Pos(ks, e.to) < j
  {
    EdgeRowMembers(sets, a, ks[..j]);
    forall e | e in EdgeRow(sets, a, ks[..j]) ensures Pos(ks, e.to) < j {
      PosInPrefix(ks, j, e.to);
    }
  }

  /** The targets of `row` come in strictly increasing key position. */
  predicate TargetsOrdered(ks: seq<string>, row: seq<Edge>) {
    forall p, q :: 0 <= p < q < |row| ==> Pos(ks, row[p].to) < Pos(ks, row[q].to)
  }

  /** The inner loop visits the targets in key order. */
  lemma {:induction false} RowOrdered(sets: HintSets, a: string, ks: seq<string>, j: nat)
    requires Distinct(ks) && j <= |ks|
    ensures TargetsOrdered(ks, EdgeRow(sets, a, ks[..j]))
  {
    if j > 0 {
      var row := EdgeRow(sets, a, ks[..j]);
      var prev := EdgeRow(sets, a, ks[..j - 1]);
      RowOrdered(sets, a, ks, j - 1);
      RowTargetsBefore(sets, a, ks, j - 1);
      assert ks[..j][..j - 1] == ks[..j - 1];
      assert ks[..j][j - 1] == ks[j - 1];
      IndexOfDistinct(ks, j - 1);
      var b := ks[j - 1];
      assert b in ks && Pos(ks, b) == j - 1;
      if a != b && Label(sets, a, b).Some? {
        assert row == prev + [Edge(a, Label(sets, a, b).value, b)];
        forall p, q | 0 <= p < q < |row| ensures Pos(ks, row[p].to) < Pos(ks, row[q].to) {
          if q == |prev| {
            assert row[p] == prev[p];
            assert prev[p] in prev;
          } else {
            assert row[p] == prev[p] && row[q] == prev[q];
          }
        }
      } else {
        assert row == prev;
      }
    }
  }

  /** The outer loop over `ks[..i]` only reaches owners before position `i`. */
  lemma OwnersBefore(sets: HintSets, ks: seq<string>, i: nat)
    requires i <= |ks|
    ensures forall e :: e in Edges(sets, ks[..i], ks) ==> Pos(ks, e.from) < i
  {
    EdgesMembers(sets, ks[..i], ks);
    forall e | e in Edges(sets, ks[..i], ks) ensures Pos(ks, e.from) < i {
      PosInPrefix(ks, i, e.from);
    }
  }

  /** The outer loop visits the owners in key order, the inner loop the targets. */
  lemma {:induction false} EdgesOrderedPrefix(sets: HintSets, ks: seq<string>, i: nat)
    requires Distinct(ks) && i <= |ks|
    ensures Ordered(ks, Edges(sets, ks[..i], ks))
  {
    if i > 0 {
      var prev := Edges(sets, ks[..i - 1], ks);
      var a := ks[i - 1];
      var row := EdgeRow(sets, a, ks);
      EdgesStep(sets, ks, i);
      EdgesOrderedPrefix(sets, ks, i - 1);
      OwnersBefore(sets, ks, i - 1);
      assert ks[..|ks|] == ks;
      RowOrdered(sets, a, ks, |ks|);
      RowTargetsBefore(sets, a, ks, |ks|);
      IndexOfDistinct(ks, i - 1);
      assert Pos(ks, a) == i - 1;
      forall e | e in row ensures Pos(ks, e.from) == i - 1 {
        assert e.from == a;
      }
      OrderedAppend(ks, prev, row, i - 1);
    }
  }

  /** One more step of the outer loop appends the row of the next key. */
  lemma EdgesStep(sets: HintSets, ks: seq<string>, i: nat)
    requires 0 < i <= |ks|
    ensures Edges(sets, ks[..i], ks) == Edges(sets, ks[..i - 1], ks) + EdgeRow(sets, ks[i - 1], ks)
  {
    var prefix := ks[..i];
    assert prefix[..i - 1] == ks[..i - 1];
  }

  /**
    * Appending a row whose owner sits at position `i`, after every owner of
    * `prev`, and whose targets increase, keeps the order.
    */
  lemma OrderedAppend(ks: seq<string>, prev: seq<Edge>, row: seq<Edge>, i: nat)
    requires Ordered(ks, prev) && TargetsOrdered(ks, row)
    requires forall e :: e in prev ==> Pos(ks, e.from) < i
    requires forall e :: e in row ==> Pos(ks, e.from) == i
    ensures Ordered(ks, prev + row)
  {
  }

  /**
    * Edge lines follow the outer-loop-then-inner-loop order of the model keys,
    * so no ordered pair is visited, or emitted, twice.
    */
  lemma EdgesOrdered(models: Models)
    requires Valid(models)
    ensures Ordered(Keys(models), EdgesOf(models))
    ensures var es := EdgesOf(models);
      forall p, q :: 0 <= p < |es| && 0 <= q < |es| && es[p].from == es[q].from && es[p].to == es[q].to ==> p == q
  {
    var ks := Keys(models);
    EdgesOrderedPrefix(HintSetsOf(models), ks, |ks|);
    assert ks[..|ks|] == ks;
  }

  /**
    * Exactly the fields whose type is not a model name get a line; relation
    * fields are left to the edges.
    */
  lemma {:induction false} FieldLinesMembers(models: Models, fields: seq<Field>)
    ensures forall l :: l in FieldLines(models, fields) ==>
      exists f :: f in fields && !IsModelType(f.fieldType, models) && l == FieldLine(f)
    ensures forall f :: f in fields && !IsModelType(f.fieldType, models) ==> FieldLine(f) in FieldLines(models, fields)
  {
    if |fields| > 0 {
      FieldLinesMembers(models, fields[1..]);
      assert fields == [fields[0]] + fields[1..];
    }
  }

  /**
    * Each related pair of models yields exactly two edge lines, one per
    * orientation, with mirrored labels; no other line joins the two models.
    */
  lemma TwoLinesPerPair(models: Models, a: string, b: string, c: Card)
    requires Valid(models) && Edge(a, c, b) in EdgesOf(models)
    ensures var es := EdgesOf(models);
      exists p, q :: 0 <= p < |es| && 0 <= q < |es| && p != q
        && es[p] == Edge(a, c, b) && es[q] == Edge(b, Mirror(c), a)
        && forall r :: 0 <= r < |es| && ((es[r].from == a && es[r].to == b) || (es[r].from == b && es[r].to == a)) ==>
             r == p || r == q
  {
    var es := EdgesOf(models);
    NoSelfEdge(models, Edge(a, c, b));
    EdgeMirror(models, a, b, c);
    EdgesOrdered(models);
    var p :| 0 <= p < |es| && es[p] == Edge(a, c, b);
    var q :| 0 <= q < |es| && es[q] == Edge(b, Mirror(c), a);
    assert p != q;
    forall r | 0 <= r < |es| && ((es[r].from == a && es[r].to == b) || (es[r].from == b && es[r].to == a))
      ensures r == p || r == q
    {
      if es[r].from == a {
        assert es[r].from == es[p].from && es[r].to == es[p].to;
      } else {
        assert es[r].from == es[q].from && es[r].to == es[q].to;
      }
    }
  }

  /** No edge joins a model to itself. */
  lemma NoSelfEdge(models: Models, e: Edge)
    requires e in EdgesOf(models)
    ensures e.from != e.to
  {
    EdgesMembers(HintSetsOf(models), Keys(models), Keys(models));
  }

  /** Property lines keep field order: the lines of a concatenation are the concatenated lines. */
  lemma {:induction false} FieldLinesConcat(models: Models, a: seq<Field>, b: seq<Field>)
    ensures FieldLines(models, a + b) == FieldLines(models, a) + FieldLines(models, b)
  {
    if |a| == 0 {
      assert a + b == b;
    } else {
      var f := a[0];
      var ab := a + b;
      assert ab[0] == f && ab[1..] == a[1..] + b;
      FieldLinesConcat(models, a[1..], b);
      var head: seq<string> := if IsModelType(f.fieldType, models) then [] else [FieldLine(f)];
      assert FieldLines(models, ab) == head + FieldLines(models, ab[1..]);
      assert FieldLines(models, a) == head + FieldLines(models, a[1..]);
      AppendAssoc(head, FieldLines(models, a[1..]), FieldLines(models, b));
    }
  }

  /** Re-bracketing a concatenation of three. */
  lemma AppendAssoc<T>(x: seq<T>, y: seq<T>, z: seq<T>)
    ensures x + (y + z) == (x + y) + z
  {
  }

  /** Blocks keep map order: the blocks of a concatenation are the concatenated blocks. */
  lemma {:induction false} EntityLinesConcat(models: Models, a: Models, b: Models)
    ensures EntityLines(models, a + b) == EntityLines(models, a) + EntityLines(models, b)
  {
    if |a| == 0 {
      assert a + b == b;
    } else {
      var ab := a + b;
      assert ab[0] == a[0] && ab[1..] == a[1..] + b;
      EntityLinesConcat(models, a[1..], b);
      var head := Block(models, a[0]);
      assert EntityLines(models, ab) == head + EntityLines(models, ab[1..]);
      assert EntityLines(models, a) == head + EntityLines(models, a[1..]);
      AppendAssoc(head, EntityLines(models, a[1..]), EntityLines(models, b));
    }
  }

  /** A name holding no space, as every Prisma identifier. */
  predicate Unspaced(name: string) {
    ' ' !in name
  }

  /**
    * An edge line names its edge: for names without spaces, equal lines come
    * from equal edges, so the four notations tell the labels apart.
    */
  lemma EdgeLineInjective(e: Edge, e': Edge)
    requires Unspaced(e.from) && Unspaced(e.to) && Unspaced(e'.from) && Unspaced(e'.to)
    ensures EdgeLine(e) == EdgeLine(e') ==> e == e'
  {
    if EdgeLine(e) == EdgeLine(e') {
      var tail, tail' := e.to + " : relates", e'.to + " : relates";
      var y, y' := Notation(e.card) + [' '] + tail, Notation(e'.card) + [' '] + tail';
      EdgeLineShape(e);
      EdgeLineShape(e');
      assert e.from + [' '] + y == e'.from + [' '] + y' by {
        StripPrefix("  ", e.from + [' '] + y, e'.from + [' '] + y');
      }
      SplitAtSeparator(e.from, y, e'.from, y', ' ');
      SplitAtSeparator(Notation(e.card), tail, Notation(e'.card), tail', ' ');
      StripSuffix(e.to, e'.to, " : relates");
      NotationInjective(e.card, e'.card);
    }
  }

  /** An edge line cut at the two spaces around the notation. */
  lemma EdgeLineShape(e: Edge)
    ensures EdgeLine(e) == "  " + (e.from + [' '] + (Notation(e.card) + [' '] + (e.to + " : relates")))
  {
  }

  /** A common prefix cancels. */
  lemma StripPrefix<T>(p: seq<T>, x: seq<T>, x': seq<T>)
    requires p + x == p + x'
    ensures x == x'
  {
    assert x == (p + x)[|p|..];
    assert x' == (p + x')[|p|..];
  }

  /** A common suffix cancels. */
  lemma StripSuffix<T>(x: seq<T>, x': seq<T>, t: seq<T>)
    requires x + t == x' + t
    ensures x == x'
  {
    assert x == (x + t)[..|x|];
    assert x' == (x' + t)[..|x'|];
  }

  /**
    * The diagram is the header, then one block per model in map order, then
    * the edge lines; the k-th model's block sits between the blocks of the
    * models before it and the blocks of those after it.
    */
  lemma DiagramLayout(models: Models, k: nat)
    requires k < |models|
    ensures GenerateMermaid(models) ==
      ["erDiagram"] + EntityLines(models, models[..k]) + Block(models, models[k])
      + EntityLines(models, models[k + 1..]) + EmitFrom(Emission([], {}), EdgesOf(models)).lines
  {
    EntityLinesSplit(models, k);
    Regroup(["erDiagram"], EntityLines(models, models[..k]), Block(models, models[k]),
            EntityLines(models, models[k + 1..]), EmitFrom(Emission([], {}), EdgesOf(models)).lines);
  }

  /** The blocks of a map, cut around its k-th model. */
  lemma EntityLinesSplit(models: Models, k: nat)
    requires k < |models|
    ensures EntityLines(models, models) ==
      EntityLines(models, models[..k]) + (Block(models, models[k]) + EntityLines(models, models[k + 1..]))
  {
    var front, back := models[..k], models[k..];
    assert models == front + back;
    EntityLinesConcat(models, front, back);
    assert back[0] == models[k] && back[1..] == models[k + 1..];
  }

  /** Re-bracketing a concatenation. */
  lemma Regroup<T>(h: seq<T>, a: seq<T>, b: seq<T>, c: seq<T>, e: seq<T>)
    ensures h + (a + (b + c)) + e == h + a + b + c + e
  {
  }

  /**
    * Marker correctness from the parser's attributes to the rendered field:
    * ` PK` iff an `id` attribute, ` UK` iff a `unique` one but no `id`, else none.
    */
  lemma RenderedMarker(p: Property)
    requires p.FieldProp?
    ensures var attrs := AttributesOf(p.attributes); var m := Marker(ToField(p));
      && (m == " PK" <==> exists i :: 0 <= i < |attrs| && attrs[i].name == "id")
      && (m == " UK" <==>
            && (forall i :: 0 <= i < |attrs| ==> attrs[i].name != "id")
            && (exists i :: 0 <= i < |attrs| && attrs[i].name == "unique"))
      && (m == "" <==> forall i :: 0 <= i < |attrs| ==> attrs[i].name != "id" && attrs[i].name != "unique")
  {
  }
}
