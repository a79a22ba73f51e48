/**
  * The cardinality classification of an ordered model pair (A, B) from the
  * four relation-hint facts, and the Mermaid notation of each label.
  */
module Cardinality {
  import opened Wrappers

  datatype Card = ManyToMany | OneToMany | ManyToOne | OneToOne

  /**
    * The Mermaid relationship notation written between the two model names:
    * crow's feet `}o`/`o{` on a "many" end, bars `||` on a "one" end.
    */
  function Notation(c: Card): (s: string)
    ensures s == "}o--o{" <==> c == ManyToMany
    ensures s == "||--o{" <==> c == OneToMany
    ensures s == "}o--||" <==> c == ManyToOne
    ensures s == "||--||" <==> c == OneToOne
    ensures |s| == 6 && s[2..4] == "--" && ' ' !in s
  {
    match c
    case ManyToMany => "}o--o{"
    case OneToMany => "||--o{"
    case ManyToOne => "}o--||"
    case OneToOne => "||--||"
  }

  /** The label as read from the other end: one-to-many and many-to-one swap. */
  function Mirror(c: Card): (m: Card)
    ensures m == c <==> c == ManyToMany || c == OneToOne
  {
    match c
    case OneToMany => ManyToOne
    case ManyToOne => OneToMany
    case _ => c
  }

  /** Distinct labels are written differently. */
  lemma NotationInjective(c: Card, d: Card)
    ensures Notation(c) == Notation(d) ==> c == d
  {
  }

  /**
    * The six-branch precedence of the source: both arrays, A->B array,
    * B->A array, both scalar, A->B scalar, B->A scalar; the first that holds
    * decides, and nothing is emitted when no hint exists.
    */
  function Classify(a2bArr: bool, b2aArr: bool, a2bScalar: bool, b2aScalar: bool): (r: Option<Card>)
    ensures r == Some(ManyToMany) <==> a2bArr && b2aArr
    ensures r == Some(OneToMany) <==>
      (a2bArr && !b2aArr) || (!a2bArr && !b2aArr && !a2bScalar && b2aScalar)
    ensures r == Some(ManyToOne) <==>
      (!a2bArr && b2aArr) || (!a2bArr && !b2aArr && a2bScalar && !b2aScalar)
    ensures r == Some(OneToOne) <==> !a2bArr && !b2aArr && a2bScalar && b2aScalar
    ensures r == None <==> !a2bArr && !b2aArr && !a2bScalar && !b2aScalar
  {
    if a2bArr && b2aArr then Some(ManyToMany)
    else if a2bArr then Some(OneToMany)
    else if b2aArr then Some(ManyToOne)
    else if a2bScalar && b2aScalar then Some(OneToOne)
    else if a2bScalar then Some(ManyToOne)
    else if b2aScalar then Some(OneToMany)
    else None
  }

  /** Array hints take precedence: once either side is a list, the scalar hints do not matter. */
  lemma ArrayPrecedence(a2bArr: bool, b2aArr: bool, s1: bool, s2: bool, t1: bool, t2: bool)
    requires a2bArr || b2aArr
    ensures Classify(a2bArr, b2aArr, s1, s2) == Classify(a2bArr, b2aArr, t1, t2)
  {
  }

  /**
    * Classifying the pair from B's side gives the mirrored label of A's side:
    * many-to-many and one-to-one are fixed, the other two swap.
    */
  lemma ClassifyMirror(a2bArr: bool, b2aArr: bool, a2bScalar: bool, b2aScalar: bool)
    ensures var r := Classify(a2bArr, b2aArr, a2bScalar, b2aScalar);
      var r' := Classify(b2aArr, a2bArr, b2aScalar, a2bScalar);
      (r.None? <==> r'.None?) && (r.Some? ==> r' == Some(Mirror(r.value)))
  {
  }
}
