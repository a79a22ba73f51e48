/**
  * The edge loop of `generateMermaid` as written: two nested loops over the
  * model keys, and `addEdge` guarded by the `emitted` set of
  * `${a}|${b}|${relation}` keys. The guard is modelled by `Mermaid.AddEdge`;
  * here are its facts, the loops as methods, and the proof that for
  * identifier names the guard never fires.
  */
module EmitEdges {
  import opened Wrappers
  import opened Seqs
  import opened OrderedMap
  import opened Cardinality
  import opened Mermaid
  import opened MermaidProofs

  /** Nothing pushed, nothing recorded: the state before the loops. */
  function Start(): Emission {
    Emission([], {})
  }

  /** Dedup keys of separable names determine both names and the relation. */
  lemma EdgeKeyInjective(a: string, b: string, r: string, a': string, b': string, r': string)
    requires Separable(a) && Separable(b) && Separable(a') && Separable(b')
    ensures EdgeKey(a, b, r) == EdgeKey(a', b', r') ==> a == a' && b == b' && r == r'
  {
    if EdgeKey(a, b, r) == EdgeKey(a', b', r') {
      assert EdgeKey(a, b, r) == a + ['|'] + (b + ['|'] + r);
      assert EdgeKey(a', b', r') == a' + ['|'] + (b' + ['|'] + r');
      SplitAtSeparator(a, b + ['|'] + r, a', b' + ['|'] + r', '|');
      SplitAtSeparator(b, r, b', r', '|');
    }
  }

  /** One more `addEdge` call. */
  lemma EmitStep(s: Emission, es: seq<Edge>, e: Edge)
    ensures EmitFrom(s, es + [e]) == AddEdge(EmitFrom(s, es), e)
  {
  }

  /** Running the calls of `a` and then those of `b` is running the calls of `a + b`. */
  lemma {:induction false} EmitFromConcat(s: Emission, a: seq<Edge>, b: seq<Edge>)
    ensures EmitFrom(s, a + b) == EmitFrom(EmitFrom(s, a), b)
  {
    if |b| == 0 {
      assert a + b == a;
    } else {
      var b', x := b[..|b| - 1], b[|b| - 1];
      assert b == b' + [x];
      assert a + b == (a + b') + [x];
      EmitFromConcat(s, a, b');
      EmitStep(s, a + b', x);
      EmitStep(EmitFrom(s, a), b', x);
    }
  }

  /** After the calls, `emitted` holds the keys recorded before plus the key of every edge passed. */
  lemma {:induction false} EmitFromKeys(s: Emission, es: seq<Edge>)
    ensures EmitFrom(s, es).emitted == s.emitted + KeysOf(es)
  {
    if |es| > 0 {
      var pre, e := es[..|es| - 1], es[|es| - 1];
      assert es == pre + [e];
      EmitFromKeys(s, pre);
      EmitStep(s, pre, e);
      KeysOfStep(pre, e);
    }
  }

  /** One more edge adds its key. */
  lemma KeysOfStep(es: seq<Edge>, e: Edge)
    ensures KeysOf(es + [e]) == KeysOf(es) + {KeyOf(e)}
  {
  }

  /**
    * Lines already pushed stay in place, and exactly one line is pushed per
    * key that was not recorded before.
    */
  lemma {:induction false} EmitFromLines(s: Emission, es: seq<Edge>)
    ensures var r := EmitFrom(s, es);
      |s.lines| <= |r.lines| && r.lines[..|s.lines|] == s.lines
      && |r.lines| - |s.lines| == |r.emitted - s.emitted|
  {
    if |es| > 0 {
      var pre, e := es[..|es| - 1], es[|es| - 1];
      var mid := EmitFrom(s, pre);
      assert es == pre + [e];
      EmitStep(s, pre, e);
      EmitFromLines(s, pre);
      if KeyOf(e) !in mid.emitted {
        EmitFromKeys(s, pre);
        NewKeyCount(s.emitted, mid.emitted, KeyOf(e));
        PrefixKept(s.lines, mid.lines, EdgeLine(e));
      }
    }
  }

  /** Recording a new key adds one to the keys recorded since `before`. */
  lemma NewKeyCount(before: set<string>, cur: set<string>, k: string)
    requires before <= cur && k !in cur
    ensures |(cur + {k}) - before| == |cur - before| + 1
  {
  }

  /** Pushing a line keeps a prefix in place. */
  lemma PrefixKept(p: seq<string>, cur: seq<string>, line: string)
    requires |p| <= |cur| && cur[..|p|] == p
    ensures (cur + [line])[..|p|] == p
  {
  }

  /** An edge whose key was recorded before pushes nothing. */
  lemma RepeatSkipped(es: seq<Edge>, e: Edge)
    requires exists d :: d in es && KeyOf(d) == KeyOf(e)
    ensures EmitFrom(Start(), es + [e]) == EmitFrom(Start(), es)
  {
    EmitStep(Start(), es, e);
    EmitFromKeys(Start(), es);
  }

  /** When no two edges share a key, every edge pushes its line, in order. */
  lemma {:induction false} EmitDistinct(es: seq<Edge>)
    requires forall p, q :: 0 <= p < q < |es| ==> KeyOf(es[p]) != KeyOf(es[q])
    ensures EmitFrom(Start(), es).lines == EdgeLines(es)
  {
    if |es| > 0 {
      var pre, e := es[..|es| - 1], es[|es| - 1];
      assert forall p :: 0 <= p < |pre| ==> pre[p] == es[p];
      EmitDistinct(pre);
      EmitFromKeys(Start(), pre);
      assert es == pre + [e];
      assert EdgeLines(es) == EdgeLines(pre) + [EdgeLine(e)];
    }
  }

  /** Key `k` was not recorded before and no edge of `pre` has it. */
  predicate FirstKey(recorded: set<string>, pre: seq<Edge>, k: string) {
    k !in recorded && forall j :: 0 <= j < |pre| ==> KeyOf(pre[j]) != k
  }

  /**
    * Which edges the guard lets through, stated without the `emitted` set:
    * the edges of `es` whose key was not recorded before and is not the key
    * of an earlier edge of `es`, in order.
    */
  function FirstPerKey(recorded: set<string>, es: seq<Edge>): seq<Edge> {
    if |es| == 0 then []
    else
      var pre, e := es[..|es| - 1], es[|es| - 1];
      FirstPerKey(recorded, pre) + (if FirstKey(recorded, pre, KeyOf(e)) then [e] else [])
  }

  /** A key is first exactly when it is missing from the recorded keys and the keys of `pre`. */
  lemma FirstKeyIff(recorded: set<string>, pre: seq<Edge>, k: string)
    ensures FirstKey(recorded, pre, k) <==> k !in recorded + KeysOf(pre)
  {
    if k in KeysOf(pre) {
      var d :| d in pre && KeyOf(d) == k;
      var j :| 0 <= j < |pre| && pre[j] == d;
      assert KeyOf(pre[j]) == k;
    } else {
      forall j | 0 <= j < |pre| ensures KeyOf(pre[j]) != k {
        assert pre[j] in pre;
      }
    }
  }

  /**
    * The lines the guard pushes are exactly the lines of the first edge with
    * each new key, in order, after the lines already there.
    */
  lemma {:induction false} EmitFromFirstPerKey(s: Emission, es: seq<Edge>)
    ensures EmitFrom(s, es).lines == s.lines + EdgeLines(FirstPerKey(s.emitted, es))
  {
    if |es| == 0 {
      assert EdgeLines([]) == [];
    } else {
      var pre, e := es[..|es| - 1], es[|es| - 1];
      assert es == pre + [e];
      var mid := EmitFrom(s, pre);
      var f := FirstPerKey(s.emitted, pre);
      EmitFromFirstPerKey(s, pre);
      assert mid.lines == s.lines + EdgeLines(f);
      EmitStep(s, pre, e);
      FirstPerKeyStep(s.emitted, pre, e);
      EmitFromKeys(s, pre);
      FirstKeyIff(s.emitted, pre, KeyOf(e));
      if FirstKey(s.emitted, pre, KeyOf(e)) {
        assert EmitFrom(s, es).lines == mid.lines + [EdgeLine(e)];
        assert FirstPerKey(s.emitted, es) == f + [e];
        EdgeLinesSnoc(f, e);
        assert s.lines + EdgeLines(f) + [EdgeLine(e)] == s.lines + (EdgeLines(f) + [EdgeLine(e)]);
      } else {
        assert EmitFrom(s, es).lines == mid.lines;
        assert FirstPerKey(s.emitted, es) == f + [];
        assert f + [] == f;
      }
    }
  }

  /** One more edge of the reference filter. */
  lemma FirstPerKeyStep(recorded: set<string>, pre: seq<Edge>, e: Edge)
    ensures FirstPerKey(recorded, pre + [e]) ==
      FirstPerKey(recorded, pre) + (if FirstKey(recorded, pre, KeyOf(e)) then [e] else [])
  {
    assert (pre + [e])[..|pre|] == pre;
  }

  /** The lines of one more edge. */
  lemma EdgeLinesSnoc(es: seq<Edge>, e: Edge)
    ensures EdgeLines(es + [e]) == EdgeLines(es) + [EdgeLine(e)]
  {
  }

  /**
    * Names holding `|` can collide: `x|y` to `z` and `x` to `y|z` share the
    * key `x|y|z|<relation>`, and the guard drops the second line.
    */
  lemma KeyCollision(c: Card)
    ensures var e1, e2 := Edge("x|y", c, "z"), Edge("x", c, "y|z");
      && e1 != e2 && KeyOf(e1) == KeyOf(e2)
      && EmitFrom(Start(), [e1, e2]).lines == [EdgeLine(e1)]
      && |EdgeLines([e1, e2])| == 2
  {
    var e1, e2 := Edge("x|y", c, "z"), Edge("x", c, "y|z");
    assert KeyOf(e1) == KeyOf(e2);
    assert [e1, e2] == [e1] + [e2];
    EmitStep(Start(), [e1], e2);
    EmitStep(Start(), [], e1);
    assert [] + [e1] == [e1];
  }

  /** For separable names the loops reach no ordered pair twice, so no two edges share a key. */
  lemma EdgeKeysDistinct(models: Models)
    requires Valid(models) && SeparableNames(models)
    ensures var es := EdgesOf(models);
      forall p, q :: 0 <= p < q < |es| ==> KeyOf(es[p]) != KeyOf(es[q])
  {
    var es := EdgesOf(models);
    EdgesOrdered(models);
    EdgesMembers(HintSetsOf(models), Keys(models), Keys(models));
    forall p, q | 0 <= p < q < |es| ensures KeyOf(es[p]) != KeyOf(es[q]) {
      assert es[p] in es && es[q] in es;
      KeySeparable(models, es[p].from);
      KeySeparable(models, es[p].to);
      KeySeparable(models, es[q].from);
      KeySeparable(models, es[q].to);
      EdgeKeyInjective(es[p].from, es[p].to, Notation(es[p].card), es[q].from, es[q].to, Notation(es[q].card));
    }
  }

  /**
    * For separable names (every Prisma identifier) the `emitted` guard never
    * fires: the diagram ends with one line per edge, in loop order.
    */
  lemma GuardNeverFires(models: Models)
    requires Valid(models) && SeparableNames(models)
    ensures EmitFrom(Start(), EdgesOf(models)).lines == EdgeLines(EdgesOf(models))
    ensures GenerateMermaid(models) == ["erDiagram"] + EntityLines(models, models) + EdgeLines(EdgesOf(models))
  {
    EdgeKeysDistinct(models);
    EmitDistinct(EdgesOf(models));
  }

  /**
    * For separable names each related pair gives exactly two diagram lines,
    * one per orientation, with mirrored labels: the line at each position is
    * the line of the edge at that position, and `TwoLinesPerPair` says which
    * two edges join the pair.
    */
  lemma TwoDiagramLinesPerPair(models: Models, a: string, b: string, c: Card)
    requires Valid(models) && SeparableNames(models) && Edge(a, c, b) in EdgesOf(models)
    ensures var es := EdgesOf(models); var ls := EmitFrom(Start(), es).lines;
      && |ls| == |es| && (forall r :: 0 <= r < |ls| ==> ls[r] == EdgeLine(es[r]))
      && exists p, q ::
           0 <= p < |ls| && 0 <= q < |ls| && p != q
           && ls[p] == EdgeLine(Edge(a, c, b)) && ls[q] == EdgeLine(Edge(b, Mirror(c), a))
  {
    var es := EdgesOf(models);
    GuardNeverFires(models);
    TwoLinesPerPair(models, a, b, c);
    var p :| 0 <= p < |es| && es[p] == Edge(a, c, b);
    var q :| 0 <= q < |es| && es[q] == Edge(b, Mirror(c), a);
    NoSelfEdge(models, Edge(a, c, b));
    assert p != q;
  }

  /** One step of the inner loop, as the row function sees it. */
  lemma RowStep(sets: HintSets, a: string, ks: seq<string>, j: nat)
    requires j < |ks|
    ensures var b := ks[j]; var row := EdgeRow(sets, a, ks[..j]);
      EdgeRow(sets, a, ks[..j + 1]) ==
        if a != b && Label(sets, a, b).Some? then row + [Edge(a, Label(sets, a, b).value, b)] else row
  {
    assert ks[..j + 1][..j] == ks[..j];
    assert ks[..j + 1][j] == ks[j];
  }

  /**
    * The inner loop for the model at position `i`: model `ks[i]` against every
    * model in key order, each classified pair passed to `addEdge`.
    */
  method EmitRow(models: Models, i: nat, lines0: seq<string>, emitted0: set<string>)
    returns (lines: seq<string>, emitted: set<string>)
    requires i < |models|
    ensures Emission(lines, emitted) ==
      EmitFrom(Emission(lines0, emitted0), EdgeRow(HintSetsOf(models), Keys(models)[i], Keys(models)))
  {
    var sets := HintSetsOf(models);
    var ks := Keys(models);
    ghost var s0 := Emission(lines0, emitted0);
    var a := ks[i];
    lines, emitted := lines0, emitted0;
    var j := 0;
    while j < |ks|
      invariant 0 <= j <= |ks|
      invariant Emission(lines, emitted) == EmitFrom(s0, EdgeRow(sets, a, ks[..j]))
    {
      var b := ks[j];
      ghost var row := EdgeRow(sets, a, ks[..j]);
      RowStep(sets, a, ks, j);
      if a != b {
        var relation := Label(sets, a, b);
        if relation.Some? {
          var e := Edge(a, relation.value, b);
          EmitStep(s0, row, e);
          var key := EdgeKey(a, b, Notation(relation.value));
          if key !in emitted {
            lines := lines + [EdgeLine(e)];
            emitted := emitted + {key};
          }
        }
      }
      j := j + 1;
    }
    assert ks[..|ks|] == ks;
  }

  /**
    * The loops of `generateMermaid` that emit edge lines: the lines `addEdge`
    * pushes for the edges in loop order; for separable names, one line per
    * edge.
    */
  method EmitEdgeLines(models: Models) returns (lines: seq<string>)
    ensures lines == EmitFrom(Start(), EdgesOf(models)).lines
    ensures Valid(models) && SeparableNames(models) ==> lines == EdgeLines(EdgesOf(models))
  {
    var sets := HintSetsOf(models);
    var ks := Keys(models);
    var emitted: set<string> := {};
    lines := [];
    var i := 0;
    while i < |ks|
      invariant 0 <= i <= |ks|
      invariant Emission(lines, emitted) == EmitFrom(Start(), Edges(sets, ks[..i], ks))
    {
      ghost var done := Edges(sets, ks[..i], ks);
      lines, emitted := EmitRow(models, i, lines, emitted);
      EdgesStep(sets, ks, i + 1);
      EmitFromConcat(Start(), done, EdgeRow(sets, ks[i], ks));
      i := i + 1;
    }
    assert ks[..|ks|] == ks;
    if Valid(models) && SeparableNames(models) {
      GuardNeverFires(models);
    }
  }
}
