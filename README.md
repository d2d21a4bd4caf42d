# nl2bash command normalizer and data-cleaning utilities, in Dafny

This project models two parts of the nl2bash repository and proves properties of them.

**1. The bash AST normalizer, from `bashlex/normalizer.py`.**
`normalize_ast` cleans a command string:
- it turns newlines into spaces and strips the string;
- it rewrites a bare first `tar` option into a dashed one.

It then asks the bashlex parser for a syntax tree and rewrites the first root of that tree into a restricted tree. The restricted tree is built from these node kinds:
- `root`
- `pipeline`
- `headcommand`
- `flag`
- `argument`
- unary and binary logic operators
- command substitutions and process substitutions

The model has two layers:
- **A value layer** (module `NormalizerSpec`). It runs over an arena of nodes (`NormTree.Forest`) addressed by index, where each node has a parent, a left sibling, a right sibling and a list of children. Each function returns the arena it leaves behind, together with how the call ended: normally, with a `ValueError` (the entry point turns it into no tree), with `sys.exit()`, or with an exception nobody catches.
- **An imperative layer** (`Normalizer.TreeBuilder`). Its methods update the arena in place, as the Python code updates node fields. Each method is proved to leave exactly the arena and outcome that the value layer computes.

The normalizer is defined twice on purpose. Lemmas cannot call methods, so every property is proved once, about the functions. The methods keep the source's in-place updates, and their contracts carry each property over to them.

Every call keeps the arena's links consistent (`NormTree.Shaped`):
- children point back to their parent;
- no node is listed twice;
- a right sibling is a child of the same parent;
- no two nodes share a right sibling.

Under these invariants, the only `ValueError`s that can escape are the ones `normalize` raises itself.

**2. Small utilities from `data/reader/clean_data.py`.**
- `minEditDist` fills a two-dimensional table. It is modelled on a Dafny `array2` and proved equal to the recursive Levenshtein distance with unit costs.
- `is_QA_website` and `head_present` are substring predicates.

The parser, and the lexical helpers `is_option`, `head_commands`, `_DIGIT_RE` and `_NUM`, come from modules that are not part of this model. They are parameters:
- the parser is a function from the cleaned command to a `BashAst.ParseResult`;
- the lexical helpers form a `BashAst.Lexicon`.

Files:

| File | Contents |
|---|---|
| `base.dfy` | `Option`; string helpers (substring search, `str.replace`, `str.strip`) |
| `bash_ast.dfy` | the raw bashlex tree, parser errors and the lexical parameters |
| `norm_tree.dfy` | the node arena, `attach_to_tree`, `removeChild`, the link invariants and their preservation |
| `command_text.dfy` | `normalize_word` and `special_command_normalization` |
| `normalizer_spec.dfy` | `find_attach_point`, `normalize`, `normalize_command` and its post-pass, `normalize_ast`, as functions |
| `normalizer.dfy` | the same operations as methods of a class that owns the arena |
| `normalizer_props.dfy` | properties of the normalizer, and a worked example (`ls -l x`) |
| `normalizer_scope.dfy` | where the normalizer attaches nodes: the parts of a pipeline or substitution stay beneath its node |
| `clean_data.dfy` | edit distance, QA-site and head-command predicates |

## Model

| member | source | states |
|---|---|---|
| NormalizerProps.LogicOperatorsDisjoint | bashlex/normalizer.py:42-56 | no word is both a unary and a binary logic operator; the unary ones are exactly `!` and `-not` |
| NormTree.GetRightChild | bashlex/normalizer.py:94-98 | the result, when present, is one of the node's children |
| NormTree.Attach | bashlex/normalizer.py:187-192 | attaching keeps the arena well formed, keeps its size, and changes no node's kind or value |
| NormTree.AttachLinksSiblings | bashlex/normalizer.py:187-192 | after `attach_to_tree(n, p)`, `n` is `p`'s last child and `p` is its parent; `n`'s left sibling is `p`'s previous last child, and that child's right sibling is `n`; earlier children keep their order; no other node changes |
| NormTree.AttachNew | bashlex/normalizer.py:187-192 | a fresh node of the given kind and value gets the next index, with `p` as its parent |
| NormTree.AttachNewFacts | bashlex/normalizer.py:187-192 | field by field, attaching a fresh node changes only the node itself, the parent's children and the previous last child's right sibling |
| NormTree.AttachNewShaped | bashlex/normalizer.py:187-192 | attaching a fresh node keeps every link invariant |
| NormTree.AttachFields | bashlex/normalizer.py:187-192 | field by field: after attaching `n` to `p`, `n`'s parent is `p`; `p`'s previous last child gets `n` as its right sibling; `p`'s children gain `n` at the end; every other parent, right sibling and child list is unchanged |
| NormTree.RemoveFirst | bashlex/normalizer.py:106-107 | `list.remove` removes exactly the first occurrence and keeps the other elements in their order: the result is the list before that occurrence followed by the list after it, so the length drops by one and the multiset loses exactly that element |
| NormTree.RemoveFirstNoDup | bashlex/normalizer.py:106-107 | removing from a list without duplicates removes the element completely, and adds nothing |
| NormTree.Reparent | bashlex/normalizer.py:264-274 | moving a right sibling under an operator keeps the arena well formed and the same size |
| NormTree.ReparentFacts | bashlex/normalizer.py:264-274 | the moved node's parent becomes the operator and its links are cleared; the operator's right sibling is cleared; the moved node leaves the old parent's children and is appended to the operator's |
| NormTree.ReparentFrame | bashlex/normalizer.py:264-274 | only the operator, the moved node and its old parent change |
| NormTree.ReparentShaped | bashlex/normalizer.py:264-274 | in a consistent tree the three nodes are distinct, and the move keeps every link invariant |
| CommandText.NormalizeWordProperties | bashlex/normalizer.py:206-207 | `normalize_word` is the identity when canonicalisation is off or the word is option-shaped, so option tokens are never canonicalised; it is also the identity on a word with no digit; with a digit-free placeholder, no digit survives |
| CommandText.ReplaceDigitRuns | bashlex/normalizer.py:206-207 | a word with no digit is unchanged; with a digit-free placeholder the result has no digit |
| CommandText.DigitRunReplaced | bashlex/normalizer.py:206-207 | a run of digits of any length becomes one copy of the placeholder |
| CommandText.ReplaceDigitRunsSplit | bashlex/normalizer.py:206-207 | a non-digit character is kept in place and separates the text around it, which is canonicalised on each side independently; with `DigitRunReplaced` this fixes the result on every word: every maximal digit run becomes the placeholder and every other character is kept in order |
| CommandText.TrailingNumberReplaced | bashlex/normalizer.py:206-207 | a digit-free stem followed by a digit run becomes the stem followed by the placeholder |
| CommandText.TarFixMatches | bashlex/normalizer.py:163-171 | `re.findall(' tar \w')` finds only matches of that shape, and finds none exactly when the pattern occurs nowhere |
| CommandText.TarFixMatchesLeftmost | bashlex/normalizer.py:163-171 | the first match listed is the leftmost occurrence, and the rest are the matches of the text after it, so every match that does not overlap an earlier one is listed, in order |
| CommandText.SpecialCommandNormalization | bashlex/normalizer.py:163-171 | the loop computes the `tar` rewrite, and returns a command not starting with `tar` unchanged |
| CommandText.NoBareTarOptionUnchanged | bashlex/normalizer.py:163-171 | a stripped `tar` command with no bare option after ` tar ` (for example an already dashed `tar -x`) is unchanged |
| CommandText.BareTarOptionDashed | bashlex/normalizer.py:163-171 | `tar` followed by a word character `c` comes out as `tar -c` |
| NormalizerSpec.ProcessSubstitutionCheck | bashlex/normalizer.py:143-150 | a process substitution accepts exactly `<` and `>`, and rejects any other value with the `ValueError` message |
| NormalizerSpec.UnsupportedMessage | bashlex/normalizer.py:345-384 | every unsupported-kind message starts with `Unsupported: `, followed by the kind (or `parameters`) |
| NormalizerSpec.FindAttachPoint | bashlex/normalizer.py:194-204 | a word that is not option-shaped attaches at the cursor; an option attaches at a flag cursor's parent and at a head-command cursor; under any other cursor the process exits; with no cursor an attribute error escapes |
| NormalizerSpec.CloseCommand | bashlex/normalizer.py:220-230 | after `;`, the scan resumes at the cursor's parent's parent when the cursor's parent is a flag, and at the parent when that parent is a head command; any other parent exits; no cursor or no parent is an attribute error; without `;` the cursor stays |
| NormalizerSpec.EmitLeaf | bashlex/normalizer.py:301-312 | a leaf is one new node under the cursor, keeping the arena consistent |
| NormalizerSpec.AbsorbOne | bashlex/normalizer.py:264-274 | in a consistent tree, one post-pass step succeeds exactly when the operator has a right sibling, and otherwise fails the assertion |
| NormalizerSpec.Absorb | bashlex/normalizer.py:264-274 | in a consistent tree, the post-pass either completes or fails the assertion; it never raises `ValueError` and never changes the number of nodes |
| NormalizerSpec.Norm | bashlex/normalizer.py:276-384 | `normalize` keeps every node it had, keeps all link invariants, and any `ValueError` it lets through is `type(node) is not ast.node` or an `Unsupported:` message |
| NormalizerSpec.WordNorm | bashlex/normalizer.py:280-312 | the `word` branch keeps the arena consistent |
| NormalizerSpec.PipelineNorm | bashlex/normalizer.py:313-328 | the `pipeline` branch keeps the arena consistent |
| NormalizerSpec.Substitution | bashlex/normalizer.py:285-300 | a substitution node of the given kind and value sits at the next index whenever there is a cursor, and success implies there was one |
| NormalizerSpec.NormParts | bashlex/normalizer.py:329-344 | walking the parts keeps the arena consistent |
| NormalizerSpec.PipelineParts | bashlex/normalizer.py:320-328 | walking a pipeline's parts keeps the arena consistent |
| NormalizerScope.PipelinePartsBeneathPipelineNode | bashlex/normalizer.py:313-328 | every command part of a pipeline is normalized beneath the one new pipeline node: each node created after it has the pipeline node or a later node as parent, and no earlier node changes its parent (under a cursor that is neither a flag nor a head command) |
| NormalizerScope.SubstitutionPartsBeneathNode | bashlex/normalizer.py:285-300 | every part of a substituted word is normalized beneath its substitution node, in the same sense |
| NormalizerScope.NormIn | bashlex/normalizer.py:276-384 | `normalize` from a cursor inside a region keeps every node it creates inside it and changes the parent of no node before the region, whatever its outcome |
| NormalizerScope.CloseCommandIn | bashlex/normalizer.py:220-230 | closing a utility on `;` cannot climb out of a region whose first node is not a flag and whose parent is neither a flag nor a head command |
| NormalizerScope.FindAttachPointIn | bashlex/normalizer.py:194-204 | an option's attach point stays inside such a region |
| NormalizerScope.AbsorbOneIn | bashlex/normalizer.py:264-274 | the post-pass moves only nodes already inside the region of the operator it absorbs into |
| NormalizerScope.DescendIn | bashlex/normalizer.py:247-255 | `getRightChild` of a cursor inside the region is inside it |
| NormalizerScope.AttachOpIn | bashlex/normalizer.py:236-245 | a logic operator attached from a cursor inside the region lands inside it, and the operators recorded for the post-pass all lie after the region's first node |
| NormalizerScope.DispatchIn | bashlex/normalizer.py:231-262 | each kind of part in the scan of a command (marker, logic operator, head command, option, argument) keeps the cursor, the new nodes and the recorded unary operators inside the region |
| NormalizerScope.DispatchOptionIn | bashlex/normalizer.py:252-255 | an option before `--` is normalized as a flag inside the region and the cursor stays inside it |
| NormalizerSpec.NormalizeCommand | bashlex/normalizer.py:209-274 | scanning a command and running the post-pass keeps the arena consistent |
| NormalizerSpec.ScanFrom | bashlex/normalizer.py:219-262 | the scan keeps the arena consistent, and its cursor and operator lists refer to existing nodes |
| NormalizerSpec.AttachOp | bashlex/normalizer.py:237-246 | a logic operator becomes a childless-at-birth node at the attach point; it is appended to the unary list or the binary list according to its kind, and the other list is unchanged |
| NormalizerSpec.Descend | bashlex/normalizer.py:247-255 | moving to the cursor's last child keeps the scan state valid |
| NormalizerSpec.Step | bashlex/normalizer.py:219-262 | one loop iteration keeps the scan state valid |
| NormalizerSpec.Dispatch | bashlex/normalizer.py:231-262 | one part's branch keeps the scan state valid |
| NormalizerSpec.NormalizeAstSpec | bashlex/normalizer.py:173-185 | a tree, when returned, is consistent and has a `root` node at index 0; a result that is neither a tree nor none is an exit or an uncaught exception |
| NormalizerProps.PlainWordOneLeaf | bashlex/normalizer.py:308-312 | a word without substitution parts becomes exactly one leaf of the requested kind under the cursor, carrying `normalize_word` of the word; with no cursor, an attribute error escapes |
| NormalizerProps.ProcessSubstitutionDirection | bashlex/normalizer.py:285-295 | a process substitution gets `>` if the word contains `>`, else `<` if it contains `<`, and its value always passes the node's check; a word with neither attaches nothing |
| NormalizerProps.EvenPipelineExits | bashlex/normalizer.py:313-319 | a pipeline node is attached first; an even number of parts then exits |
| NormalizerProps.PipelinePartKinds | bashlex/normalizer.py:320-328 | `pipe` parts create nothing; any part that is neither a command nor a pipe exits |
| NormalizerProps.LongListCrashes | bashlex/normalizer.py:329-332 | a list of more than two parts raises a plain string, which is not caught |
| NormalizerProps.UnsupportedNotHandled | bashlex/normalizer.py:341-384 | none of the listed unsupported kinds is caught by an earlier branch of `normalize` |
| NormalizerProps.UnsupportedKindRejected | bashlex/normalizer.py:341-384 | a part-less node of an unsupported kind raises `ValueError` with `Unsupported: <kind>` and changes nothing |
| NormalizerProps.PassThroughBeforeUnsupported | bashlex/normalizer.py:341-384 | a node of an unsupported kind that has parts is passed through to its parts instead of being rejected |
| NormalizerProps.UnknownKindIgnored | bashlex/normalizer.py:341-384 | a part-less node of any other unhandled kind emits nothing and ends normally |
| NormalizerProps.CommandDispatch | bashlex/normalizer.py:339-340 | a `command` node is handed to `normalize_command` at the cursor |
| NormalizerProps.MissingNestedCommandRejected | bashlex/normalizer.py:278-279 | a substitution whose nested command is missing is rejected as not an `ast.node` |
| NormalizerProps.MarkersEmitNothing | bashlex/normalizer.py:232-236 | `--` and `;` emit no node: they only set `END_OF_OPTIONS` or `END_OF_COMMAND` |
| NormalizerProps.SemicolonClosesUtility | bashlex/normalizer.py:220-230 | after `;`, the next part is handled at the flag's parent when the cursor hangs under a flag, at the head command when it hangs under a head command, and any other parent exits |
| NormalizerProps.QuotedHeadCommandDropped | bashlex/normalizer.py:247-251 | a head-command word whose length differs from its source span attaches nothing and leaves the cursor where it was |
| NormalizerProps.HeadCommandBecomesCursor | bashlex/normalizer.py:247-251 | an unquoted head command becomes a leaf under the cursor, and the cursor moves onto it |
| NormalizerProps.OptionBecomesFlag | bashlex/normalizer.py:252-255 | before `--`, an option-shaped word becomes a flag, its text untouched: under a head-command cursor, or beside a flag cursor; the cursor moves onto it; any other cursor exits |
| NormalizerProps.OptionStep | bashlex/normalizer.py:252-255 | before `--`, an option-shaped word that is neither a head command nor a marker goes to `find_attach_point`; when that fails the scan stops with its outcome, and otherwise the word is normalized as a flag there and the cursor descends |
| NormalizerProps.WordBecomesArgument | bashlex/normalizer.py:256-258 | any other word, including an option-shaped word after `--`, becomes an argument under the unchanged cursor |
| NormalizerProps.LogicOperatorRecorded | bashlex/normalizer.py:237-246 | a logic operator, on success, is one new childless node with its word, recorded in the list for its kind only |
| NormalizerProps.AbsorbMovesRightSibling | bashlex/normalizer.py:264-274 | in a consistent tree, the post-pass moves the operator's right sibling from the old parent to the end of the operator's children; it clears the moved node's links and the operator's right sibling, and changes no other node |
| NormalizerProps.ConsecutiveUnaryOpsCrash | bashlex/normalizer.py:264-268 | for `! ! x`, the first operator absorbs the second, whose right sibling is thereby gone, so the assertion fails |
| NormalizerProps.AbsorbNeverRejects | bashlex/normalizer.py:264-268 | the post-pass ends normally or fails the assertion; a first operator with no right sibling fails it |
| NormalizerProps.BlankCommandNoTree | bashlex/normalizer.py:181-185 | a command made only of white space gives no tree, whatever the parser would say |
| NormalizerProps.ReplaceNewlinesKeepsBlank | bashlex/normalizer.py:181 | turning newlines into spaces keeps a blank command blank |
| NormalizerProps.ParseFailureContained | bashlex/normalizer.py:386-407 | the five listed parser exceptions give no tree; any other parser exception escapes |
| NormalizerProps.OnlyFirstTreeNormalized | bashlex/normalizer.py:409-418 | parses that agree on their first root give the same result, so later roots are ignored |
| NormalizerProps.FirstTreeUnderFreshRoot | bashlex/normalizer.py:409-418 | after parsing, the first root is normalized under a fresh `root`: success gives that tree, a `ValueError` gives no tree, and anything else escapes |
| NormalizerProps.FirstRootOnly | bashlex/normalizer.py:409-418 | two parses with the same first root give the same result, whatever their other roots |
| NormalizerSpec.AstFromParse | bashlex/normalizer.py:386-418 | from a parse: a tree, when returned, is consistent and has a `root` node at index 0; a parser failure gives no tree or escapes; an empty parse is an uncaught `IndexError` |
| NormalizerExample.LsLongListing | bashlex/normalizer.py:209-258 | `ls -l x` becomes root, then head command `ls`, then flag `-l`, then argument `x`: the argument hangs under the flag before it |
| NormalizerExample.LsStep0 | bashlex/normalizer.py:247-251 | the first word of `ls -l x` becomes the head command and the cursor |
| NormalizerExample.LsStep1 | bashlex/normalizer.py:252-255 | `-l` becomes a flag under `ls` and the cursor |
| NormalizerExample.LsStep2 | bashlex/normalizer.py:256-258 | `x` becomes an argument under the flag `-l` |
| Normalizer.TreeBuilder.AttachToTree | bashlex/normalizer.py:187-192 | the in-place update leaves exactly `NormTree.Attach` of the old arena |
| Normalizer.TreeBuilder.AttachNewNode | bashlex/normalizer.py:187-192 | creating and attaching a node leaves `NormTree.AttachNew` of the old arena, and returns the new index |
| Normalizer.TreeBuilder.EmitArgument | bashlex/normalizer.py:301-312 | the leaf is attached as `NormalizerSpec.EmitLeaf` says |
| Normalizer.TreeBuilder.NormalizeParts | bashlex/normalizer.py:329-344 | the loop over the parts ends with the outcome and arena of `NormalizerSpec.NormParts` |
| Normalizer.TreeBuilder.AttachSubstitution | bashlex/normalizer.py:285-300 | ends as `NormalizerSpec.Substitution` says |
| Normalizer.TreeBuilder.Normalize | bashlex/normalizer.py:276-384 | `normalize` ends with the outcome and arena of `NormalizerSpec.Norm` |
| Normalizer.TreeBuilder.NormalizeWordNode | bashlex/normalizer.py:280-312 | ends as `NormalizerSpec.WordNorm` says |
| Normalizer.TreeBuilder.NormalizePipeline | bashlex/normalizer.py:313-328 | the loop over a pipeline's parts ends as `NormalizerSpec.PipelineNorm` says |
| Normalizer.TreeBuilder.NormalizeSimpleCommand | bashlex/normalizer.py:209-274 | the scan loop, with its cursor, flags and operator lists, followed by the post-pass, ends as `NormalizerSpec.NormalizeCommand` says |
| Normalizer.TreeBuilder.ScanStep | bashlex/normalizer.py:219-262 | one loop iteration ends as `NormalizerSpec.Step` says |
| Normalizer.TreeBuilder.ScanPart | bashlex/normalizer.py:231-262 | one part's branch ends as `NormalizerSpec.Dispatch` says |
| Normalizer.TreeBuilder.AttachLogicOp | bashlex/normalizer.py:237-246 | ends as `NormalizerSpec.AttachOp` says |
| Normalizer.TreeBuilder.AbsorbUnaryOps | bashlex/normalizer.py:264-274 | the post-pass loop over the recorded unary operators ends as `NormalizerSpec.Absorb` says |
| Normalizer.TreeBuilder.constructor | bashlex/normalizer.py:411 | a fresh builder holds only the `root` node |
| Normalizer.NormalizeAst | bashlex/normalizer.py:173-185 | `normalize_ast` returns what `NormalizerSpec.NormalizeAstSpec` describes: no tree for a blank command, otherwise the result of normalizing its parse |
| Normalizer.NormalizeParsed | bashlex/normalizer.py:386-418 | building the tree in place from a parse returns what `NormalizerSpec.AstFromParse` describes |
| CleanData.SubstCost | data/reader/clean_data.py:93-95 | the substitution cost is 0 exactly when the characters are equal, and 1 otherwise |
| CleanData.UnitCosts | data/reader/clean_data.py:87-95 | insertion and deletion cost 1; substitution cost is symmetric |
| CleanData.Min3 | data/reader/clean_data.py:82-84 | the minimum of three costs is one of them and at most each |
| CleanData.LevPrefixStep | data/reader/clean_data.py:80-85 | each inner table cell satisfies the recurrence that the distance between prefixes obeys |
| CleanData.MinEditDist | data/reader/clean_data.py:66-85 | `minEditDist` returns the Levenshtein distance with unit costs |
| CleanData.FillRow | data/reader/clean_data.py:81-84 | filling one row of the table makes each of its cells the distance between the corresponding prefixes, and leaves later rows unchanged |
| CleanData.LevAgainstEmpty | data/reader/clean_data.py:74-78 | the distance between the empty string and `s` is the length of `s`, in either order |
| CleanData.LevSelf | data/reader/clean_data.py:66-85 | the distance from a string to itself is 0 |
| CleanData.LevZeroIff | data/reader/clean_data.py:66-85 | the distance is 0 exactly when the strings are equal |
| CleanData.LevBounds | data/reader/clean_data.py:66-85 | the distance is at least the difference of the lengths and at most the larger length |
| CleanData.LevSymmetric | data/reader/clean_data.py:66-95 | the distance is symmetric |
| CleanData.IsQAWebsite | data/reader/clean_data.py:49-59 | a URL is a QA website exactly when it contains `stackoverflow`, `stackexchange`, `superuser` or `askubuntu` |
| CleanData.QAWebsiteAnywhere | data/reader/clean_data.py:49-59 | any of the four site names anywhere in a URL makes it a QA website |
| CleanData.HeadPresent | data/reader/clean_data.py:419-425 | a head is present exactly when the command contains the head followed by a space, or a space followed by the head |
| CleanData.HeadPresentNeedsSpace | data/reader/clean_data.py:419-425 | a command equal to the head alone does not count; the head followed by a space does |

## Left out

- The bashlex parser, its tokenizer and its exceptions are not part of this model. The parser is a function parameter that returns either a list of roots or one of the parser exceptions.
- `is_option`, `head_commands`, `_DIGIT_RE` and `_NUM` come from a module that is not part of this model. The first two and the placeholder are parameters (`BashAst.Lexicon`). `_DIGIT_RE` is taken to match runs of decimal digits.
- The `print` diagnostics, `pretty_print`, `linear_print` and the `__main__` block print only. `sys.exit()` becomes the outcome `Exit`, and the process ending is not modelled further.
- `Node.getNumChildren` reads a misspelt attribute and would raise; nothing in the core calls it. `getSecond2RightChild` and `removeChildByIndex` are never called either.
- The declared arities and child types of the node classes (`num_child`, `children_types`) are never checked by the code, so they are not modelled as invariants.
- Python's `type(node) is not ast.node` check is modelled only where a node can be absent: the nested `command` of a substitution. Every other raw node is a node by construction.
- NormalizerSpec.Norm: the constructor check of `ProcessSubstitutionNode` is modelled on its own (`ProcessSubstitutionCheck`) and not inside `Norm`, because `Norm` only ever passes `<` or `>`. `ProcessSubstitutionDirection` proves the check passes.
- Strings.IsSpace: covers the six ASCII whitespace characters that `str.strip` removes. On a `unicode` command, Python 2's `strip` also removes the other Unicode whitespace characters, among them U+001C to U+001F, U+0085, U+00A0, U+2000 to U+200A and U+3000. So a command made only of such characters is blank to the source, and gives no tree, but not to the model. `NormalizerProps.BlankCommandNoTree` and `CleanCommand` inherit this narrower notion of blank.
- NormalizerScope.PipelinePartsBeneathPipelineNode: requires that the pipeline's cursor is neither a flag nor a head command. Under such a cursor the scan of a command part can climb out of the pipeline node: on `;` the cursor moves to the pipeline node's parent, and on an option it moves from a flag to that flag's parent. The source does the same. `NormalizerScope.SubstitutionPartsBeneathNode` has the same requirement.
- A raw node's optional `parts` attribute is a flag `hasParts` plus a sequence of parts; a missing attribute that the code reads becomes an attribute error.
- The left-to-right order of the output tokens is not stated as a separate property. It follows from `AttachLinksSiblings`, where each new node is appended as its parent's last child, and from the post-pass contracts: `RemoveFirst` keeps the remaining children in order, and `ReparentFacts` appends the moved node at the end of the operator's children.
- Node objects are arena indices, so Python object identity becomes index equality; `list.remove` compares by identity, which the model reproduces by comparing indices.
- The database, filesystem and random parts of `clean_data.py` are outside this model: `DBConnection` other than `head_present`, `unique_pairs`, `dump_data` and `dump_htmls`.
- `token_overlap` uses floating-point division and an external tokenizer, so it is not modelled. `remove_headers` and `path_rel2abs` are thin regular-expression wrappers and are not modelled either, and neither is the `deprecated` decorator.
- `encoder_decoder/decode_tools.py` is not part of this model: it steps a TensorFlow session and does plotting and I/O.

On these points the model follows the code as written, which a reader may not expect:
- an even-length pipeline calls `sys.exit()` rather than yielding no tree;
- a list of more than two parts raises a string, which is not caught;
- binary operators get no children;
- a process substitution whose word has neither `<` nor `>` attaches nothing;
- `! ! x` fails the post-pass assertion;
- the `tar` rewrite replaces every occurrence of each match in turn, rather than making a single pass.
