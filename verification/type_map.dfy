/** `toMermaidFieldType`: Prisma scalar type names to Mermaid attribute types. */
module TypeMap {

  /** The fixed lookup table of the nine Prisma scalar types. */
  const Table: map<string, string> := map[
    "String" := "string",
    "Int" := "int",
    "BigInt" := "int",
    "Float" := "float",
    "Decimal" := "float",
    "Boolean" := "bool",
    "DateTime" := "datetime",
    "Json" := "json",
    "Bytes" := "bytes"
  ]

  /** The Mermaid type names the table can produce. */
  const MermaidScalars: set<string> := {"string", "int", "float", "bool", "datetime", "json", "bytes"}

  /**
    * `map[t] || t`: a scalar name is translated, any other name (a model, an
    * enum, an unsupported type) passes through unchanged. The translation
    * always changes the name, so the result equals the input exactly for the
    * names outside the table.
    */
  function MermaidType(t: string): (r: string)
    ensures r == t <==> t !in Table
    ensures r != t ==> r in MermaidScalars
  {
    if t in Table then Table[t] else t
  }

  /** The table, entry by entry. */
  lemma MermaidTypeTable()
    ensures MermaidType("String") == "string"
    ensures MermaidType("Int") == "int" && MermaidType("BigInt") == "int"
    ensures MermaidType("Float") == "float" && MermaidType("Decimal") == "float"
    ensures MermaidType("Boolean") == "bool"
    ensures MermaidType("DateTime") == "datetime"
    ensures MermaidType("Json") == "json"
    ensures MermaidType("Bytes") == "bytes"
  {
  }
}
