/**
  * Model extraction: `getModelsAndEnums` turns the parser's declaration list
  * into an insertion-ordered map from model name to model, keeping only the
  * `field` members of each model with their array, id and unique flags.
  */
module Extract {
  import opened Wrappers
  import opened Seqs
  import opened OrderedMap
  import opened PrismaAst

  /** A field as recorded by the generator. */
  datatype Field = Field(
    name: string,
    fieldType: string,
    isArray: bool,
    attributes: seq<Attribute>,
    isId: bool,
    isUnique: bool)

  datatype Model = Model(name: string, fields: seq<Field>)

  /** Both maps the extraction builds. */
  datatype Extracted = Extracted(models: seq<Entry<Model>>, enums: seq<Entry<Decl>>)

  /** `f.attributes || []` */
  function AttributesOf(attrs: Option<seq<Attribute>>): seq<Attribute> {
    if attrs.Some? then attrs.value else []
  }

  /** `attrs.some((a) => a.name === name)` */
  function HasAttribute(attrs: seq<Attribute>, name: string): (b: bool)
    ensures b <==> exists i :: 0 <= i < |attrs| && attrs[i].name == name
  {
    if |attrs| == 0 then false
    else attrs[0].name == name || HasAttribute(attrs[1..], name)
  }

  /** The record built for one field member. */
  function ToField(p: Property): Field
    requires p.FieldProp?
  {
    var attrs := AttributesOf(p.attributes);
    Field(p.name, p.fieldType, p.arrayFlag, attrs, HasAttribute(attrs, "id"), HasAttribute(attrs, "unique"))
  }

  /**
    * The flags of a field: `isId` iff some attribute is named `id`, `isUnique`
    * iff some attribute is named `unique`, `isArray` is the parser's list
    * marker; attributes with any other name have no effect.
    */
  lemma FieldFlags(p: Property)
    requires p.FieldProp?
    ensures var f := ToField(p); var attrs := AttributesOf(p.attributes);
      && f.name == p.name && f.fieldType == p.fieldType && f.isArray == p.arrayFlag
      && (f.isId <==> exists i :: 0 <= i < |attrs| && attrs[i].name == "id")
      && (f.isUnique <==> exists i :: 0 <= i < |attrs| && attrs[i].name == "unique")
  {
  }

  /**
    * `decl.properties.filter((p) => p.type === 'field').map(...)`. The bound
    * is all its own contract says; `ExtractFieldsMembers` states which
    * fields come out and `ExtractFieldsConcat` that they keep their order.
    */
  function ExtractFields(props: seq<Property>): (fields: seq<Field>)
    ensures |fields| <= |props|
  {
    if |props| == 0 then []
    else if props[0].FieldProp? then [ToField(props[0])] + ExtractFields(props[1..])
    else ExtractFields(props[1..])
  }

  /** Exactly the `field` members become fields: every field comes from one, and every one gives a field. */
  lemma {:induction false} ExtractFieldsMembers(props: seq<Property>)
    ensures forall f :: f in ExtractFields(props) ==> exists p :: p in props && p.FieldProp? && f == ToField(p)
    ensures forall p :: p in props && p.FieldProp? ==> ToField(p) in ExtractFields(props)
  {
    if |props| > 0 {
      ExtractFieldsMembers(props[1..]);
      assert props == [props[0]] + props[1..];
    }
  }

  /** Filtering and mapping keep declaration order: the fields of a concatenation are the concatenated fields. */
  lemma {:induction false} ExtractFieldsConcat(a: seq<Property>, b: seq<Property>)
    ensures ExtractFields(a + b) == ExtractFields(a) + ExtractFields(b)
  {
    if |a| > 0 {
      ExtractFieldsConcat(a[1..], b);
      assert (a + b)[1..] == a[1..] + b;
    } else {
      assert a + b == b;
    }
  }

  /** The model record built for a model declaration. */
  function ModelOf(d: Decl): Model
    requires d.ModelDecl?
  {
    Model(d.name, ExtractFields(d.properties))
  }

  /** One iteration of the loop over `ast.list`. */
  function Step(acc: Extracted, d: Decl): Extracted {
    match d
    case ModelDecl(name, _) => acc.(models := Set(acc.models, name, ModelOf(d)))
    case EnumDecl(name, _) => acc.(enums := Set(acc.enums, name, d))
    case OtherDecl(_) => acc
  }

  /**
    * `getModelsAndEnums(ast)`: the declarations are visited in order. Both
    * maps keep distinct keys; which keys, in which order and with which
    * values is stated by `ModelKeys`, `LastDeclarationWins` and `EnumKeys`.
    */
  function GetModelsAndEnums(ast: seq<Decl>): (r: Extracted)
    ensures Valid(r.models) && Valid(r.enums)
  {
    if |ast| == 0 then Extracted([], [])
    else Step(GetModelsAndEnums(ast[..|ast| - 1]), ast[|ast| - 1])
  }

  /** The names of the model declarations, in declaration order, repetitions included. */
  function ModelNames(ast: seq<Decl>): (names: seq<string>)
    ensures forall n :: n in names <==> exists i :: 0 <= i < |ast| && ast[i].ModelDecl? && ast[i].name == n
  {
    if |ast| == 0 then []
    else
      var prev := ModelNames(ast[..|ast| - 1]);
      assert forall i :: 0 <= i < |ast| - 1 ==> ast[..|ast| - 1][i] == ast[i];
      if ast[|ast| - 1].ModelDecl? then prev + [ast[|ast| - 1].name] else prev
  }

  /**
    * `keys` lists every element of `names` exactly once, ordered by where each
    * first occurs in `names`.
    */
  predicate FirstOccurrenceOrder(keys: seq<string>, names: seq<string>) {
    && Distinct(keys)
    && (forall n :: n in keys ==> n in names)
    && (forall n :: n in names ==> n in keys)
    && forall p, q :: 0 <= p < q < |keys| ==>
         keys[p] in names && keys[q] in names && IndexOf(names, keys[p]) < IndexOf(names, keys[q])
  }

  /** One more name keeps the first-occurrence order when it is appended only if new. */
  lemma FirstOccurrenceStep(keys: seq<string>, names: seq<string>, n: string)
    requires FirstOccurrenceOrder(keys, names)
    ensures FirstOccurrenceOrder(if n in keys then keys else keys + [n], names + [n])
  {
    var names' := names + [n];
    forall x | x in names
      ensures IndexOf(names', x) == IndexOf(names, x)
    {
      IndexOfAppend(names, n, x);
    }
    if n !in keys {
      var keys' := keys + [n];
      assert IndexOf(names', n) == |names| by {
        assert names'[|names|] == n;
      }
      forall p, q | 0 <= p < q < |keys'|
        ensures keys'[p] in names' && keys'[q] in names' && IndexOf(names', keys'[p]) < IndexOf(names', keys'[q])
      {
        assert keys'[p] == keys[p];
        if q < |keys| {
          assert keys'[q] == keys[q];
        }
      }
    }
  }

  /**
    * The models map holds each declared model name exactly once, and the
    * names appear in the order of their FIRST declaration.
    */
  lemma {:induction false} ModelKeys(ast: seq<Decl>)
    ensures Valid(GetModelsAndEnums(ast).models)
    ensures FirstOccurrenceOrder(Keys(GetModelsAndEnums(ast).models), ModelNames(ast))
  {
    if |ast| > 0 {
      var pre := ast[..|ast| - 1];
      var d := ast[|ast| - 1];
      ModelKeys(pre);
      var prev := GetModelsAndEnums(pre).models;
      if d.ModelDecl? {
        assert ModelNames(ast) == ModelNames(pre) + [d.name];
        FirstOccurrenceStep(Keys(prev), ModelNames(pre), d.name);
      } else {
        assert ModelNames(ast) == ModelNames(pre);
      }
    }
  }

  /** For a repeated model name the LAST declaration provides the fields. */
  lemma {:induction false} LastDeclarationWins(ast: seq<Decl>, i: nat)
    requires i < |ast| && ast[i].ModelDecl?
    requires forall j :: i < j < |ast| ==> !(ast[j].ModelDecl? && ast[j].name == ast[i].name)
    ensures Has(GetModelsAndEnums(ast).models, ast[i].name)
    ensures Get(GetModelsAndEnums(ast).models, ast[i].name) == ModelOf(ast[i])
  {
    var pre := ast[..|ast| - 1];
    if i < |ast| - 1 {
      LastDeclarationWins(pre, i);
      assert ast[i] == pre[i];
    }
  }

  /** The enums map holds exactly the names of the enum declarations. */
  lemma {:induction false} EnumKeys(ast: seq<Decl>)
    ensures forall n :: Has(GetModelsAndEnums(ast).enums, n) <==>
      exists i :: 0 <= i < |ast| && ast[i].EnumDecl? && ast[i].name == n
  {
    if |ast| > 0 {
      var pre := ast[..|ast| - 1];
      var d := ast[|ast| - 1];
      EnumKeys(pre);
      var prev := GetModelsAndEnums(pre).enums;
      var cur := GetModelsAndEnums(ast).enums;
      forall n ensures Has(cur, n) <==> exists i :: 0 <= i < |ast| && ast[i].EnumDecl? && ast[i].name == n {
        if d.EnumDecl? && d.name == n {
          assert Has(cur, n);
        } else {
          assert Has(cur, n) <==> Has(prev, n);
          assert (exists i :: 0 <= i < |ast| && ast[i].EnumDecl? && ast[i].name == n) <==>
                 (exists i :: 0 <= i < |pre| && pre[i].EnumDecl? && pre[i].name == n) by {
            assert forall i :: 0 <= i < |pre| ==> pre[i] == ast[i];
          }
        }
      }
    }
  }
}
