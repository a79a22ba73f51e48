# Prisma schema to Mermaid ER diagram, modelled in Dafny

This project models the diagram generator of `src/scripts/generate-uml.js`.
The generator reads the declaration list of one or more Prisma schemas and
writes a Mermaid `erDiagram`. It works in three pure stages:

1. **Model extraction** (`getModelsAndEnums`, module `Extract`). It builds an
   insertion-ordered map from model name to model. Each model keeps only its
   `field` members, each with `name`, `type`, `isArray`, `isId` and
   `isUnique`. Line 36 tests `a.name === 'unique'` twice in one
   disjunction; the model tests it once, which is the same condition.
   Enum declarations go to a second map. A JavaScript `Map` is
   modelled by module `OrderedMap`, a sequence of entries with distinct keys
   whose `Set` keeps a present key in its first position.
2. **Type mapping** (`toMermaidFieldType`, module `TypeMap`). A table of the
   nine Prisma scalar names. Any other name passes through.
3. **Rendering and cardinality inference** (`generateMermaid`, modules
   `Mermaid`, `Cardinality`, `EmitEdges`, and the lemmas in `MermaidProofs`).
   It first collects relation hints: owner model, target model, list or
   single. It collapses them into two key sets, `arrMap` and `scalarMap`.
   Then it writes one entity block per model, leaving out fields whose type
   is a model name. Finally it classifies every ordered pair of distinct
   models with a fixed six-branch precedence and passes each classified pair
   to `addEdge`. `addEdge` writes one `A <label> B : relates` line unless
   its dedup key was recorded before.

Module `Generate` is the pure part of `main`. A declaration list without
models is an error (`NoModels`, where `main` exits with status 1). Otherwise
the lines are joined with newlines (module `Text`; `Split` is the inverse
used to state the round trip).

Three behaviours of the code are easy to misread. The model follows the code
as written:

- **Both orientations are emitted.** The comment at
  `src/scripts/generate-uml.js:101` says "To avoid duplicates, canonicalize".
  But the loops at lines 120-143 visit both (A, B) and (B, A), and the
  dedup key of `addEdge` (line 112) includes the orientation. So every
  related pair passes two edges with mirrored labels to `addEdge`
  (`TwoLinesPerPair`, `MutualListEdges`). For names without `-` or `|` both
  become diagram lines (`EmitEdges.TwoDiagramLinesPerPair`); for other names
  the guard may drop one (see below).
- **Duplicate model names are not an error.** `models.set` at line 39
  overwrites. A repeated name keeps its first position and takes the fields
  of its last declaration (`ModelKeys`, `LastDeclarationWins`).
- **Self-referencing fields do not appear.** A field typed by its own model
  has a model type, so line 89 leaves it out of the block. Line 122 skips the
  pair (A, A), so it gets no edge either.

The no-models check is not part of extraction: `getModelsAndEnums` accepts
an input without models, and the guard at lines 163-166 of `main` tests the
map afterwards. It is modelled in `Generate.GenerateDiagram`.

The hint sets and the `emitted` set are keyed by strings, as in the source:
`${from}->${to}` and `${a}|${b}|${relation}`. These encodings are injective
only for names without `-` and `|`. Every Prisma identifier meets that
condition (`MermaidProofs.Separable`). The lemmas that turn key lookups back
into facts about fields require it.

The `emitted` guard is modelled as written (`Mermaid.AddEdge`), so the
diagram is the source's for every input. For separable names the guard never
suppresses a line (`EmitEdges.GuardNeverFires`). For names holding `|`, two
different edges can share a key, and the guard then drops the second line
(`EmitEdges.KeyCollision`).

## Model

| member | source | states |
|---|---|---|
| `OrderedMap.Set` | src/scripts/generate-uml.js:39 | `Map.set`: a new key goes to the end; a present key keeps its position and only its value changes; other keys are untouched; distinct keys stay distinct |
| `OrderedMap.Keys` | src/scripts/generate-uml.js:119 | `Array.from(models.keys())`: the keys in insertion order; no contract of its own, `OrderedMap.Set` and `Extract.ModelKeys` state which keys and in which order |
| `OrderedMap.Has` | src/scripts/generate-uml.js:48 | `models.has(k)`: `k` is one of the keys; no contract of its own, `OrderedMap.Set` states how it changes and `Mermaid.IsModelType` uses it |
| `OrderedMap.Get` | src/scripts/generate-uml.js:86 | the value that `for (const [name, model] of models)` pairs with a key (the source never calls `get`); the value comes from an entry with that key |
| `OrderedMap.GetAt` | src/scripts/generate-uml.js:86 | in a map without repeated keys the value paired with the key at position i is the value of that entry |
| `Extract.HasAttribute` | src/scripts/generate-uml.js:35-36 | `.some(a => a.name === n)` holds iff some attribute in the list is named `n` |
| `Extract.AttributesOf` | src/scripts/generate-uml.js:34-36 | `f.attributes`, or the empty list when it is absent: a missing attribute list reads as empty; no contract of its own, `Extract.FieldFlags` states the flags it leads to |
| `Extract.ToField` | src/scripts/generate-uml.js:30-37 | the field record of one `field` member; no contract of its own, it is described by `Extract.FieldFlags` and `MermaidProofs.RenderedMarker` |
| `Extract.FieldFlags` | src/scripts/generate-uml.js:30-36 | a field record copies name, type and list marker; `isId` iff some attribute is named `id`; `isUnique` iff some attribute is named `unique`; no other attribute matters |
| `Extract.ExtractFields` | src/scripts/generate-uml.js:27-37 | the filter and map over a model's members; its own contract only bounds the count, and `Extract.ExtractFieldsMembers` and `Extract.ExtractFieldsConcat` describe it |
| `Extract.ExtractFieldsMembers` | src/scripts/generate-uml.js:27-37 | every extracted field comes from a `field` member, and every `field` member gives a field |
| `Extract.ExtractFieldsConcat` | src/scripts/generate-uml.js:27-30 | filtering and mapping keep declaration order: the fields of `a + b` are the fields of `a` followed by those of `b` |
| `Extract.ModelOf` | src/scripts/generate-uml.js:26-39 | the record stored for a model declaration: its name and its extracted fields; no contract of its own, `Extract.LastDeclarationWins` states where it ends up |
| `Extract.Step` | src/scripts/generate-uml.js:25-42 | one pass of the loop body: a model is set in the models map, an enum in the enums map, anything else is skipped; no contract of its own, `Extract.ModelKeys`, `Extract.LastDeclarationWins` and `Extract.EnumKeys` describe the loop |
| `Extract.GetModelsAndEnums` | src/scripts/generate-uml.js:22-45 | the loop over the declarations; both maps keep each key once, as a JavaScript `Map` does; keys, order and values are stated by the next three rows |
| `Extract.ModelKeys` | src/scripts/generate-uml.js:22-44 | the models map holds each declared model name exactly once, ordered by first declaration; other declaration kinds add nothing |
| `Extract.LastDeclarationWins` | src/scripts/generate-uml.js:26-39 | for a repeated model name, the map value is built from the last declaration with that name |
| `Extract.EnumKeys` | src/scripts/generate-uml.js:40-42 | the enums map holds exactly the names of the enum declarations |
| `TypeMap.MermaidType` | src/scripts/generate-uml.js:51-64 | the result differs from the input exactly for the nine table keys, and then it is one of the Mermaid scalar names |
| `TypeMap.MermaidTypeTable` | src/scripts/generate-uml.js:52-62 | the nine entries: String to string, Int and BigInt to int, Float and Decimal to float, Boolean to bool, DateTime to datetime, Json to json, Bytes to bytes |
| `Cardinality.Classify` | src/scripts/generate-uml.js:128-141 | the six-branch precedence as one condition per label: many-to-many iff both list hints; one-to-many iff only A to B is a list, or no list and only B to A is scalar; many-to-one is the mirror of that; one-to-one iff no list and both scalar; no edge iff no hint |
| `Cardinality.ArrayPrecedence` | src/scripts/generate-uml.js:128-133 | once either direction has a list hint, the scalar hints do not change the label |
| `Cardinality.ClassifyMirror` | src/scripts/generate-uml.js:128-141 | classifying from B's side gives the mirrored label: one-to-many and many-to-one swap, the other two stay |
| `Cardinality.Notation` | src/scripts/generate-uml.js:129-140 | the exact string each label writes, as at lines 129, 131, 133 and 136: many-to-many is `}o--o{`; one-to-many is two bars then `--o{`; many-to-one is `}o--` then two bars; one-to-one is two bars, `--`, two bars. Each is six characters with `--` in the middle and no space, so an edge line can be cut back at its spaces |
| `Cardinality.NotationInjective` | src/scripts/generate-uml.js:129-140 | the four labels are written differently |
| `Mermaid.IsModelType` | src/scripts/generate-uml.js:47-49 | `models.has(typeName)`: a type is a model type iff it is a key of the map; no contract of its own, it decides `Mermaid.FieldHints` and `MermaidProofs.FieldLinesMembers` |
| `Mermaid.FieldHints` | src/scripts/generate-uml.js:73-82 | a model's hints are exactly its fields whose type is a model name, each as (owner, type, list flag) |
| `Mermaid.Hints` | src/scripts/generate-uml.js:71-83 | membership only: a hint is in the list iff some model has a field whose type is a model name and that gives the hint's owner, type and list flag |
| `Mermaid.CollectHints` | src/scripts/generate-uml.js:102-108 | a key is in the array set iff some list hint has it, and in the scalar set iff some single hint has it; presence only |
| `Mermaid.HintKey` | src/scripts/generate-uml.js:105 | the key `from->to`, also looked up at lines 123-126; no contract of its own, `MermaidProofs.HintKeyInjective` states that it determines both names when they hold no `-` |
| `Mermaid.HintSetsOf` | src/scripts/generate-uml.js:102-108 | the two key sets built from all hints; no contract of its own, `MermaidProofs.HintSetsMeaning` states which keys each set holds |
| `Mermaid.Label` | src/scripts/generate-uml.js:123-126 | the four key lookups of a pair fed to `Cardinality.Classify`; no contract of its own, `MermaidProofs.HintSetsMeaning` and `MermaidProofs.EdgeIffRelated` describe it |
| `Mermaid.EdgeRow` | src/scripts/generate-uml.js:121-142 | the inner loop for one owner; no contract of its own, `Mermaid.EdgeRowMembers` and `MermaidProofs.RowOrdered` describe it |
| `Mermaid.Edges` | src/scripts/generate-uml.js:120-143 | both loops over given key lists; no contract of its own, `Mermaid.EdgesMembers` describes it |
| `Mermaid.EdgesOf` | src/scripts/generate-uml.js:119-143 | both loops over the model keys; no contract of its own, `MermaidProofs.EdgeIffRelated`, `MermaidProofs.EdgeMirror`, `MermaidProofs.EdgesOrdered` and `MermaidProofs.TwoLinesPerPair` describe it |
| `Mermaid.EdgeRowMembers` | src/scripts/generate-uml.js:121-142 | the inner loop emits an edge for target `b` iff `b` is one of the visited keys, differs from `a`, and the pair classifies, with that label |
| `Mermaid.EdgesMembers` | src/scripts/generate-uml.js:119-143 | an edge is emitted iff its two ends are model keys, they differ, and the pair classifies to its label |
| `Mermaid.Marker` | src/scripts/generate-uml.js:91 | ` PK` iff the field is an id; ` UK` iff it is unique and not an id; empty iff neither |
| `Mermaid.TypeText` | src/scripts/generate-uml.js:90 | the mapped type comes first, followed by `[]` exactly when the field is a list |
| `Mermaid.FieldLine` | src/scripts/generate-uml.js:90-92 | the property line; no contract of its own, its parts are described by `Mermaid.TypeText` and `Mermaid.Marker` |
| `Mermaid.Block` | src/scripts/generate-uml.js:87-94 | one entity block; no contract of its own, it is described by `MermaidProofs.FieldLinesMembers` and `MermaidProofs.DiagramLayout` |
| `Mermaid.FieldLines` | src/scripts/generate-uml.js:88-93 | the property lines of a block; its own contract only bounds the count, `MermaidProofs.FieldLinesMembers` and `MermaidProofs.FieldLinesConcat` describe it |
| `Mermaid.EntityLines` | src/scripts/generate-uml.js:86-95 | all entity blocks in map order; no contract of its own, `MermaidProofs.EntityLinesConcat` and `MermaidProofs.DiagramLayout` describe it |
| `MermaidProofs.RenderedMarker` | src/scripts/generate-uml.js:33-91 | from parser attributes to the rendered marker: ` PK` iff an `id` attribute; ` UK` iff a `unique` attribute and no `id`; nothing iff neither |
| `MermaidProofs.FieldLinesMembers` | src/scripts/generate-uml.js:88-93 | a block lists a line for every field whose type is not a model name, and every line it lists is the line of such a field |
| `MermaidProofs.FieldLinesConcat` | src/scripts/generate-uml.js:88-93 | property lines keep field order |
| `MermaidProofs.EntityLinesConcat` | src/scripts/generate-uml.js:86-95 | entity blocks keep map order |
| `MermaidProofs.DiagramLayout` | src/scripts/generate-uml.js:67-145 | the header comes first, then the blocks of the earlier models, then the k-th model's block, then the later blocks, and then all edge lines |
| `Mermaid.GenerateMermaid` | src/scripts/generate-uml.js:66-146 | the diagram's lines; no contract of its own, it is described by `MermaidProofs.DiagramLayout` and `EmitEdges.GuardNeverFires` |
| `MermaidProofs.HintKeyInjective` | src/scripts/generate-uml.js:105 | the key `A->B` of names without `-` determines A and B |
| `MermaidProofs.HintSetsMeaning` | src/scripts/generate-uml.js:72-108 | `A->B` is in the array set iff model A has a list field typed B, and in the scalar set iff it has a single field typed B |
| `MermaidProofs.EdgeIffRelated` | src/scripts/generate-uml.js:119-143 | an edge `A c B` is emitted iff A and B are distinct models and their fields classify to `c`; there are never self edges |
| `MermaidProofs.EdgeIffReference` | src/scripts/generate-uml.js:119-143 | a pair of distinct models gets an edge iff one of them has a field typed by the other; no relation field, no edge |
| `MermaidProofs.EdgeMirror` | src/scripts/generate-uml.js:120-143 | if (A, B) is emitted with label `c`, then (B, A) is emitted with the mirror of `c` |
| `MermaidProofs.NoSelfEdge` | src/scripts/generate-uml.js:120-122 | no edge joins a model to itself: the inner loop skips the owner |
| `MermaidProofs.ListReferenceEdges` | src/scripts/generate-uml.js:130-133 | a list field of A typed B, with no list field of B typed A, gives a one-to-many line from A to B and a many-to-one line from B to A |
| `MermaidProofs.MutualListEdges` | src/scripts/generate-uml.js:128-129 | mutual list fields give `}o--o{` in both orientations, so two edges and not one are passed to `addEdge` |
| `MermaidProofs.EdgesOrdered` | src/scripts/generate-uml.js:119-143 | edges come in outer-loop-then-inner-loop order of the model keys, so no ordered pair appears twice |
| `MermaidProofs.TwoLinesPerPair` | src/scripts/generate-uml.js:120-143 | each related pair gives exactly two edges passed to `addEdge`, one per orientation, with mirrored labels; whether both become lines is stated by `EmitEdges.TwoDiagramLinesPerPair` |
| `EmitEdges.TwoDiagramLinesPerPair` | src/scripts/generate-uml.js:110-143 | for names without `-` or a pipe, the lines `addEdge` pushes are one per edge in loop order, and each related pair has its two mirrored lines at two different positions |
| `Mermaid.EdgeLine` | src/scripts/generate-uml.js:114 | the edge line; no contract of its own, it is described by `MermaidProofs.EdgeLineInjective` |
| `MermaidProofs.EdgeLineInjective` | src/scripts/generate-uml.js:114 | for names without spaces, equal edge lines come from equal edges: owner, label and target can be read back from the line |
| `EmitEdges.EdgeKeyInjective` | src/scripts/generate-uml.js:112 | the pipe-separated dedup key of names without `-` or a pipe determines both names and the relation |
| `Mermaid.EdgeKey` | src/scripts/generate-uml.js:112 | the key of `a`, `b` and `relation` joined by pipe characters; no contract of its own, `EmitEdges.EdgeKeyInjective` and `EmitEdges.KeyCollision` describe it |
| `Mermaid.KeyOf` | src/scripts/generate-uml.js:112 | the dedup key of an edge; no contract of its own, `EmitEdges.EdgeKeysDistinct` describes it on the loops' edges |
| `Mermaid.AddEdge` | src/scripts/generate-uml.js:110-116 | `addEdge`; no contract of its own, it is described by the rows that follow |
| `Mermaid.EmitFrom` | src/scripts/generate-uml.js:111-142 | `addEdge` called on each edge in order; no contract of its own, `EmitEdges.EmitFromKeys`, `EmitEdges.EmitFromLines`, `EmitEdges.EmitFromFirstPerKey` and `EmitEdges.EmitDistinct` describe it |
| `EmitEdges.EmitFromKeys` | src/scripts/generate-uml.js:110-116 | after any run of `addEdge` calls, `emitted` holds the earlier keys plus the key of every edge passed, whether or not its line was pushed |
| `EmitEdges.EmitFromLines` | src/scripts/generate-uml.js:110-116 | lines pushed earlier stay in place, and exactly one line is pushed per key not recorded before |
| `EmitEdges.FirstPerKey` | src/scripts/generate-uml.js:110-116 | the reference for what the guard keeps: the edges whose key was not recorded before and is not the key of an earlier edge in the run |
| `EmitEdges.EmitFromFirstPerKey` | src/scripts/generate-uml.js:110-116 | any run of `addEdge` calls pushes exactly the lines of `FirstPerKey`, in order, after the earlier lines |
| `EmitEdges.RepeatSkipped` | src/scripts/generate-uml.js:113 | an edge whose key was recorded earlier pushes nothing and changes nothing |
| `EmitEdges.EmitDistinct` | src/scripts/generate-uml.js:110-116 | when no two edges share a key, every edge pushes its line, in order |
| `EmitEdges.KeyCollision` | src/scripts/generate-uml.js:112-113 | names holding a pipe can collide: an edge owned by a name with a pipe and a different edge pointing to a name with a pipe share a key, and the guard drops the second line |
| `EmitEdges.EdgeKeysDistinct` | src/scripts/generate-uml.js:110-143 | for names without `-` or a pipe the loops pass no two edges with the same key |
| `EmitEdges.GuardNeverFires` | src/scripts/generate-uml.js:66-145 | for such names the diagram is the header, the blocks, and one line per edge in loop order |
| `EmitEdges.EmitRow` | src/scripts/generate-uml.js:121-142 | the inner loop with `addEdge` inlined ends in the state of `addEdge` called on the row's edges in order, from any starting lines and keys |
| `EmitEdges.EmitEdgeLines` | src/scripts/generate-uml.js:110-143 | the two loops produce the lines `addEdge` pushes for the edges in loop order; for names without `-` or a pipe, exactly one line per edge |
| `Text.Join` | src/scripts/generate-uml.js:145 | `lines.join('\n')`; its own contract covers zero and one line, and `Text.JoinSplit` and `Text.SplitJoin` describe it |
| `Text.JoinSplit` | src/scripts/generate-uml.js:145 | splitting a text at newlines and joining the pieces gives the text back |
| `Text.SplitJoin` | src/scripts/generate-uml.js:145 | joining lines without newlines and splitting the result gives the lines back |
| `Generate.GenerateDiagram` | src/scripts/generate-uml.js:162-168 | the result is the no-models error iff no declaration is a model; otherwise the text's first line is `erDiagram` |

## Left out

- `readPrismaFiles`, the directory and file constants, `fs.mkdirSync`, `fs.writeFileSync`, `console` and `process.exit` are file and process I/O. The `files.length === 0` check of `main` goes with them.
- `getSchema` of `@mrleebo/prisma-ast` is a foreign parser. Its output is the `PrismaAst.Decl` sequence. An absent attribute list is `None`. An absent list marker is `false`. A field type is a plain name.
- The merging of several files' declaration lists in `main` is plain concatenation. The model starts from the merged list.
- The enums map is built and its keys are proved, but nothing reads it: `main` uses only `models`.
- `map[t] || t` in `toMermaidFieldType` can also hit `Object.prototype` members (for example `t = "constructor"`). The model uses a finite map, so such names pass through unchanged.
- `Mermaid.Hints`: states membership only, not one hint per field nor their order. Only membership reaches the output, through the two key sets.
- `MermaidProofs.HintSetsMeaning`, `MermaidProofs.EdgeIffRelated`, `MermaidProofs.EdgeIffReference`, `MermaidProofs.ListReferenceEdges`, `MermaidProofs.MutualListEdges`, `EmitEdges.EdgeKeysDistinct`, `EmitEdges.GuardNeverFires`: they require names without `-` or `|`, because only for those are the string keys injective.
- `MermaidProofs.TwoLinesPerPair`: it counts the edges passed to `addEdge`, not the lines written. That both edges become lines is proved only for names without `-` or `|`, by `EmitEdges.TwoDiagramLinesPerPair`. For other names the guard may drop one, as `EmitEdges.KeyCollision` shows.
- `EmitEdges.TwoDiagramLinesPerPair`: it requires names without `-` or `|`, for the same reason as the list above.
- `EmitEdges.EmitEdgeLines`: its one-line-per-edge clause holds only for names without `-` or `|`, for the same reason. Its first clause holds for every input.
- `MermaidProofs.EdgeLineInjective`: it requires names without spaces, because a space inside a name would make the cut ambiguous.
- `Generate.GenerateDiagram`: it states only the first line of the text. The layout of all the lines is stated on the line sequence by `MermaidProofs.DiagramLayout`, and `Text.SplitJoin` links the two when no name holds a newline.
- `src/scripts/seed.ts` is database seeding: transactions, random data, password hashing and floating-point coordinates. It has no pure logic in common with the generator.
- `src/prisma.config.ts` is a static configuration object with an environment lookup.
