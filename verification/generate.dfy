/**
  * The pure part of `main`: extract the models from the combined declaration
  * list, refuse an input without models, render and join the diagram.
  */
module Generate {
  import opened Wrappers
  import opened OrderedMap
  import opened PrismaAst
  import opened Extract
  import opened Mermaid
  import opened Text

  /** `No models found in schemas`: `main` exits with status 1. */
  datatype Error = NoModels

  /** The diagram text for a declaration list, or the error when it declares no model. */
  function GenerateDiagram(ast: seq<Decl>): (r: Result<string, Error>)
    ensures r.Failure? <==> forall i :: 0 <= i < |ast| ==> !ast[i].ModelDecl?
    ensures r.Success? ==> Split(r.value)[0] == "erDiagram"
  {
    var models := GetModelsAndEnums(ast).models;
    ModelKeys(ast);
    if |models| == 0 then
      assert forall i :: 0 <= i < |ast| && ast[i].ModelDecl? ==> ast[i].name in ModelNames(ast);
      Failure(NoModels)
    else
      assert Keys(models)[0] in ModelNames(ast);
      var lines := GenerateMermaid(models);
      SplitJoinFirst(lines);
      Success(Join(lines))
  }
}
