/**
  * The declaration list produced by the Prisma schema parser, as far as the
  * diagram generator reads it. The parser itself is not part of this model;
  * its output is the input of `Extract.GetModelsAndEnums`.
  */
module PrismaAst {
  import opened Wrappers

  /** A field attribute such as `@id` or `@unique`; only its name is read. */
  datatype Attribute = Attribute(name: string)

  /** A member of a model block. */
  datatype Property =
      /** `type === 'field'`; `attributes` is absent when the field has none written. */
    | FieldProp(name: string, fieldType: string, arrayFlag: bool, attributes: Option<seq<Attribute>>)
      /** Any other member: a block attribute (`@@id`, `@@index`), a comment, a break. */
    | OtherProp(kind: string)

  /** A top-level declaration. */
  datatype Decl =
    | ModelDecl(name: string, properties: seq<Property>)
    | EnumDecl(name: string, enumerators: seq<string>)
      /** datasource, generator, view, type, comment, ...: ignored by the generator. */
    | OtherDecl(kind: string)
}
