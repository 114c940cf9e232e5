# Verification of cpptrace's in-memory logic

cpptrace turns the addresses of a C++ stack trace into names, files and lines. This project models the parts of
it that are logic over data in memory and proves what they promise. It covers:

- **The symbol pruner** (`SymbolLexer`, `SymbolTokenizer`, `SymbolGrammar`, `SymbolParser`, `BalancedGroups`,
  `PrintedSymbols`, `PrintedGroups`, `PrintedTerms`, `PruningProof`, `PrintedTexts`, `PruningExamples`, `Declarators`,
  `ConversionNames`, `UnreadableTexts`, `SpelledForms`, `SpelledParts`). The tokenizer and the recursive-descent parser are classes whose methods follow
  the C++ methods branch by branch. Each is proved against a function on the text that is left. `PrintedSymbols` turns the grammar that the source documents into a data type:
  paths of components, each a name with what is printed around it, as tokens. `PruningProof` shows that every text that
  reads as a declaration is pruned to the name of its last part, and `PrintedTexts` that reading as tokens is being those
  tokens with whitespace between them, in the spellings of GCC, LLVM and MSVC alike. `Declarators` and `ConversionNames`
  say for which function pointers and conversions that is the declared name, and `UnreadableTexts` what happens to a text
  that is no tokens. `SpelledForms` and `SpelledParts` tell the words, operators and characters of all this one by one, and
  what whole symbols written with them are pruned to.
- **Pruning twice** (`PrunedNames`, `NameTexts`, `NameQuotes`, `RenamedPaths`, `NameReading`, `NameValidity`, `PruningTwice`):
  the text of a pruned name is read as a declaration of its own, and pruning leaves it alone.
- **The DWARF lookup structures** (`SortedSearch`, `DwarfRanges`, `CuCache`, `LineTables`, `Inlines`): range
  coalescing, the range map behind the unit cache, the line table in its bounded cache, and the iterative walk over
  inlined calls.
- **Trace assembly** (`ResolveFrames`, `BlankFrames`, `Inlines`): grouping by object, resolution through references into one
  vector, completion, and flattening with the in-place rotation of locations.
- **The LRU cache** (`LruCache`, `LruInclusion`): nodes, the map to them, and the inclusion property over whole runs.
- **The JIT object manager** (`JitObjects`): two vectors that stay consistent over registration and removal.
- **Text algorithms** (`NumberText`, `Microfmt`, `FormatTemplates`, `FormatFields`, `ReplaceAll`, `Prettifying`, `Snippets`).
- **The current-exception state** (`CurrentException`, `RethrowHistory`): lazily resolved traces and the rethrow switch, with their
  history over every run.

`Wrappers` has optional values and results, `Words` machine words. Each file holds the module of its name, except that
`SymbolTokenizer` holds `Tokenizer`, `SymbolParser` holds `Parser` and `LruCache` holds `LruCaches`. `dafny verify dfyconfig.toml` checks everything.

## What the code does where one might expect something else

- An escape in a quoted string moves the cursor by three characters and can step past the end
  (`src/prune_symbol.cpp:244-252`). The model stops the skip at the end of the text.
- `accept` with the template-list flag shows `>` but consumes the whole `>>` (`src/prune_symbol.cpp:375-391`). No caller
  passes the flag.
- The longest operator wins even where a template argument list begins: `void operator<<S>(S, S)` and `foo<::S>()` are
  left as they are (`PruningExamples.LessThanBeforeList`, `PruningExamples.ScopeFirstInList`), and so is
  `foo<&S::operator<<int>(S)>()` (`PruningExamples.LessThanInList`). An operator and a list are recognized
  exactly if what follows makes no longer operator of them (`PruningExamples.OperatorIsRecognized`,
  `PruningExamples.ListIsOpened`).
- The lookahead for function pointers is made only right behind a name (`src/prune_symbol.cpp:909-912`), and it knows
  `(*` but not `(S::*`. Anywhere else the declarator is dropped with the other groups, and the return type is left:
  `int* (*f())(int)` is pruned to `int*` and `void (S::*f())(int)` to `void` (`Declarators.FunctionBehindPointer`,
  `Declarators.FunctionToMember`). `Declarators.DeclaratorBehindType` says exactly when the function's name is left.
- The type of a conversion operator is parsed in the same way. A declarator right behind a name in it needs a name of its
  own, so `S::operator int (*)(double)()` is left as it is (`ConversionNames.ConversionToFunctionPointer`). With one, the
  name starts afresh and the class and `operator` are lost; `ConversionNames.ConversionOperator` and
  `ConversionNames.NameIsWhole` say exactly when they are kept.
- Pruning a name again changes nothing, but not always because it is parsed: `main::<lambda#1>` is what a GCC lambda is
  pruned to, and the parser fails on it (`NameReading.PathReads`, `PruningTwice.PruningAgain`).
- The list walk forgets that its first callback asked to stop (`src/symbols/dwarf/dwarf.hpp:481-492`), and each unit is
  walked as a list of one. So the unit walk of `lookup_cu` goes on after a hit and returns the last unit that holds the
  pc; when units are disjoint that is the only one.
- The unsigned subtraction in coalescing takes a range that starts at 0 for the neighbour of one that ends at the last
  address; the merged range loses addresses (`DwarfRanges.WrappingLosesAddresses`), and
  `DwarfRanges.KeepsExactlyWithoutWrap` says exactly when.
- A range of one unit, empty or not, can hide the unit around it from the cached lookup (`CuCache.EmptyRangeHidesUnit`,
  `CuCache.InnerRangeHidesUnit`). `CuCache.CachedLookupIsExact` says exactly when the cached lookup is right, whatever
  ranges the units have. Ranges of JIT objects hide each other in the same way (`JitObjects.InnerRangeHides`,
  `JitObjects.LookupIsExact`).
- `get_line` lets the number just past the table through (`src/snippets/snippet.cpp:55`). Trimming in `get_lines` runs off
  its vector for some targets beyond the file; `Snippets.StaysInBounds` is the exact condition. With a context so large
  that sums wrap around, the target itself is not shown (`Snippets.TargetIsShown`).
- A formatter that turns out malformed has used up the argument it read its width from
  (`FormatTemplates.FailedFormatterLosesWidth`).
- `replace_all_dynamic` is documented to replace occurrences that a replacement creates (`src/utils/replace_all.hpp:17-18`).
  It does for `> >`; for `std::__cxx11::` it does exactly when no further `__cxx11::` follows one
  (`Prettifying.InlineNamespaceFolding`).
- A frame of generated code whose symbol is found keeps no address: the slot then differs from the empty frame and is
  not completed (`ResolveFrames.GeneratedCodeAddress`).
- `current_exception_was_rethrown` turns false when a non-empty rethrow trace resolves to an empty one
  (`RethrowHistory.AskingMayChangeTheAnswer`).

## How things are modelled

- An exception or an unchecked index is an `Err` result. A `VERIFY` that fails is an `Err` as well,
  except in a constructor, where it is a precondition.
- Addresses are 64-bit where arithmetic on them can wrap (`DwarfRanges`, `CuCache`) and plain numbers where they are only
  compared. Sizes wrap around in `Snippets`.
- A `std::list` of cache nodes is a sequence of node objects, and an iterator is the node; splicing reorders the
  sequence.
- `std::sort` is some function from sequences to sorted permutations, the same whenever it is given the same sequence;
  where its choice among equal keys matters, the results hold for every such function. `std::upper_bound` and
  `std::string::find` are known by what they find.
- `<cctype>` classes are those of ASCII.
- libdwarf is replaced by its answers: the ranges, tags and names of entries, and the rows of a unit's line program.
- Exceptions in trace assembly can come from every lookup; the library option that absorbs them is a parameter.

## Model

| member | source | states |
|---|---|---|
| `SymbolLexer.MsvcStringIsShortestBalancedPrefix` | `src/prune_symbol.cpp:214-237` | A nested MSVC string ends at the first position where quotes have closed every backquote; it is a parse error exactly if there is none |
| `Tokenizer.LongestMatch` | `src/prune_symbol.cpp:63-78` | The reading of punctuation by its first three characters is the longest entry of the operator table |
| `Tokenizer.FirstMatchIsLongest` | `src/prune_symbol.cpp:76-76` | In a table sorted by decreasing length the first entry that matches is the longest |
| `Tokenizer.FindPrefix` | `src/prune_symbol.cpp:280-287` | The loop over the table finds the first entry that starts the text, or none |
| `Tokenizer.PunctuationAtFront` | `src/prune_symbol.cpp:280-287` | What the table search takes is the longest operator, or nothing if no operator starts the text |
| `Tokenizer.SymbolTokenizer.PeekAnonymousNamespace` | `src/prune_symbol.cpp:184-191` | Finds either spelling of the tag at the front and moves nothing |
| `Tokenizer.SymbolTokenizer.PeekNumber` | `src/prune_symbol.cpp:193-212` | Takes the whole run of number characters behind a digit |
| `Tokenizer.SymbolTokenizer.PeekMsvcString` | `src/prune_symbol.cpp:214-237` | The depth-counting loop finds what the recursive scan finds, including the error |
| `Tokenizer.SymbolTokenizer.ParseQuotedString` | `src/prune_symbol.cpp:239-262` | The cursor loop finds the closing quote, with escapes skipped and the skip clamped to the end |
| `Tokenizer.SymbolTokenizer.PeekLiteral` | `src/prune_symbol.cpp:264-278` | A number, else an MSVC string, else a quoted string; errors stop the search |
| `Tokenizer.SymbolTokenizer.PeekPunctuation` | `src/prune_symbol.cpp:280-287` | The punctuation token is the longest entry of the table |
| `Tokenizer.SymbolTokenizer.PeekIdentifier` | `src/prune_symbol.cpp:289-302` | Takes the whole run of identifier characters |
| `Tokenizer.SymbolTokenizer.MaybeLoadNextToken` | `src/prune_symbol.cpp:309-341` | Skips whitespace once, then caches exactly the token the lexer specification gives; consumed text, skipped text and the rest still make up the source |
| `Tokenizer.SymbolTokenizer.Peek` | `src/prune_symbol.cpp:357-363` | Shows the next token, `>>` as `>` in a template list, and consumes nothing |
| `Tokenizer.SymbolTokenizer.Advance` | `src/prune_symbol.cpp:365-373` | Consumes just the token it returns: it is the next slice of the source, and half of `>>` stays behind in a template list |
| `Tokenizer.SymbolTokenizer.AcceptType` | `src/prune_symbol.cpp:375-382` | Consumes the next token if its kind fits and nothing otherwise; the whole `>>` goes when `>` was shown |
| `Tokenizer.SymbolTokenizer.AcceptToken` | `src/prune_symbol.cpp:384-391` | The same for one particular token |
| `Parser.SymbolParser.Append` | `src/prune_symbol.cpp:473-484` | Output and flags follow the separation rule for two identifiers in a row and the reset of the output |
| `Parser.SymbolParser.AcceptPointerRef` | `src/prune_symbol.cpp:486-500` | The loop takes the whole run of `*`, `&` and `&&` and appends it if asked to |
| `Parser.SymbolParser.ConsumeBalanced` | `src/prune_symbol.cpp:502-530` | The loop with a depth counter and recursion into groups equals the depth function; it ends because every turn consumes text |
| `Parser.SymbolParser.AcceptBalancedPunctuation` | `src/prune_symbol.cpp:532-540` | A group of any kind is consumed with its closer |
| `Parser.SymbolParser.AcceptIgnoredIdentifier` | `src/prune_symbol.cpp:542-549` | Refines its grammar rule; which words these are is told in SpelledForms |
| `Parser.SymbolParser.AcceptAnonymousNamespace` | `src/prune_symbol.cpp:551-558` | Refines its grammar rule: either tag is written in the GNU spelling |
| `Parser.SymbolParser.AcceptNewDelete` | `src/prune_symbol.cpp:560-577` | Refines its grammar rule, errors included |
| `Parser.SymbolParser.AcceptSpecialDecltype` | `src/prune_symbol.cpp:579-604` | Refines its grammar rule, errors included |
| `Parser.SymbolParser.AcceptCoAwaitOrLiteralOperator` | `src/prune_symbol.cpp:615-629` | Refines its grammar rule, errors included |
| `Parser.SymbolParser.AcceptOperatorPunctuation` | `src/prune_symbol.cpp:631-646` | Refines its grammar rule: `()` and `[]` need both halves; nothing is appended in a template list |
| `Parser.SymbolParser.AcceptOperator` | `src/prune_symbol.cpp:606-661` | Refines its grammar rule, conversion operators (mutual recursion with symbols) and template-list mode included |
| `Parser.SymbolParser.AcceptIdentifierToken` | `src/prune_symbol.cpp:663-678` | Refines its grammar rule: `~` needs an identifier |
| `Parser.SymbolParser.ConsumePunctuation` | `src/prune_symbol.cpp:680-700` | The loop takes punctuation up to `::` or `#`, balanced where it opens |
| `Parser.SymbolParser.AcceptBracedLambda` | `src/prune_symbol.cpp:708-751` | Refines its grammar rule: a GCC lambda or unnamed type becomes a name in angle brackets |
| `Parser.SymbolParser.AcceptLiteralTerm` | `src/prune_symbol.cpp:752-785` | Refines its grammar rule: LLVM lambdas are bracketed, an MSVC enclosing symbol is pruned recursively on a shorter text |
| `Parser.SymbolParser.AcceptAngledLambda` | `src/prune_symbol.cpp:786-800` | Refines its grammar rule, errors included |
| `Parser.SymbolParser.AcceptLambdaOrUnnamed` | `src/prune_symbol.cpp:702-802` | Refines its grammar rule |
| `Parser.SymbolParser.LookaheadIsFunctionPointer` | `src/prune_symbol.cpp:805-835` | Looks on a copy of the tokenizer: true exactly for `(`, calling conventions and a pointer; the tokenizer itself does not move |
| `Parser.SymbolParser.ParseFunctionPointer` | `src/prune_symbol.cpp:837-876` | Refines its grammar rule: pointer required, output reset before the inner symbol |
| `Parser.SymbolParser.ParseSymbolTerm` | `src/prune_symbol.cpp:878-884` | Refines its grammar rule: the alternatives in the order of the source |
| `Parser.SymbolParser.ConsumePunctuationAndTrailingModifiers` | `src/prune_symbol.cpp:886-899` | The loop equals the recursive rule for trailing groups, qualifiers and references |
| `Parser.SymbolParser.ParseSymbol` | `src/prune_symbol.cpp:901-934` | The loop over terms and `::` equals the recursive rule |
| `Parser.SymbolParser.Parse` | `src/prune_symbol.cpp:939-953` | Refines the rule for the whole text; on success skipped whitespace and consumed tokens concatenate to the source |
| `Parser.PruneSymbol` | `src/prune_symbol.cpp:960-973` | Terminates on every input and returns the pruned name, or the symbol itself after an error or an empty name |
| `BalancedGroups.GroupEndsAtFirstExcess` | `src/prune_symbol.cpp:502-530` | A group of any of the four kinds ends just behind the first piece with which closers outnumber openers, else with the text; it fails exactly if a piece before that cannot be read. Pieces are tokens, and in a template list items: tokens, whole groups of another kind, and `operator` with what it names |
| `BalancedGroups.NestedGroupIsOneItem` | `src/prune_symbol.cpp:520-526` | In a template list a group of another kind is one item, so no `>` inside it closes the list |
| `PrintedTexts.LexIsExact` | `src/prune_symbol.cpp:309-341` | A token is found at the front of a text exactly if it is a well-formed token that does not go on in what follows: longest operators, whole words and numbers, shortest balanced strings |
| `PrintedTexts.CloserIsExact` | `src/prune_symbol.cpp:343-352` | In a template argument list `>` is one token exactly if what follows does not make `>=` or `>>=` of it |
| `PrintedTexts.TextReads` | `src/prune_symbol.cpp:309-373` | Tokens written with any gaps that keep them apart are read back as those tokens |
| `PrintedTexts.ReadsAreTexts` | `src/prune_symbol.cpp:309-373` | And every text that is read as some tokens is those tokens with whitespace between them |
| `PrintedGroups.GroupIsPassed` | `src/prune_symbol.cpp:502-540` | Any tokens in which brackets of one kind nest are consumed up to their own closer |
| `PrintedGroups.ListIsPassed` | `src/prune_symbol.cpp:502-540` | A template argument list is consumed up to its own `>`, over nested lists, `>>` for two closers, groups and operators such as `operator>` |
| `PrintedGroups.ModifiersArePassed` | `src/prune_symbol.cpp:886-899` | Groups, qualifiers and references behind a name are dropped, whatever their order and number, and nothing more |
| `PrintedGroups.Lookahead` | `src/prune_symbol.cpp:804-835` | The lookahead is true exactly for a parenthesis, calling conventions and a pointer |
| `PruningProof.HeadIsRead` | `src/prune_symbol.cpp:878-884` | Every kind of term (tags, names, destructors, all operators, conversions, lambdas and unnamed types of three compilers, enclosing functions) is recognized and appends exactly its name |
| `PruningProof.DeclaratorIsRead` | `src/prune_symbol.cpp:837-876` | A function pointer declarator is passed, and the name starts afresh with what it declares |
| `PruningProof.PathIsRead` | `src/prune_symbol.cpp:901-934` | Reading a path consumes exactly the path and appends exactly its name; a path that cannot be parsed fails or leaves the parser stuck |
| `PruningProof.PruneDeclaration` | `src/prune_symbol.cpp:396-465` | For every declaration of the documented grammar and every text that reads as it, pruning leaves exactly the name of its last part, or the text itself if the declaration cannot be parsed. In that grammar, as in the parser, a declarator stands right behind a name, and anywhere else it is a group that is dropped |
| `PrintedTexts.PruneText` | `src/prune_symbol.cpp:960-973` | The same for the tokens written out, however they are spaced |
| `PruningExamples.OperatorNames` | `src/prune_symbol.cpp:606-661` | What the operators with names are pruned to: `new`, `delete` with or without `[]`, deduced conversions, `co_await`, literal operators, symbols and conversions |
| `PruningProof.UnnamedFails` | `src/prune_symbol.cpp:837-876` | A declarator that names nothing, such as `(*)`, cannot be parsed |
| `Declarators.DeclaratorName` | `src/prune_symbol.cpp:837-876` | A declarator that is parsed as one starts the name afresh, whatever scopes and type name stand in front of it |
| `Declarators.DeclaratorBehindType` | `src/prune_symbol.cpp:909-919` | Behind a type a declarator leaves the declared name exactly if its pointer stands right behind the name of the type; otherwise it is dropped as a group and the name of the type is left |
| `Declarators.FunctionName` | `src/prune_symbol.cpp:909-919` | For every text of the form `t refs modifiers (front f(...)) ...`: `f` is left exactly if there is nothing behind `t` and `front` is a pointer; otherwise `t` with its references |
| `Declarators.FunctionBehindPointer` | `src/prune_symbol.cpp:909-919` | `int* (*f())(int)` is pruned to `int*` |
| `Declarators.FunctionToMember` | `src/prune_symbol.cpp:805-835` | `void (S::*f())(int)` is pruned to `void` |
| `ConversionNames.NameIsWhole` | `src/prune_symbol.cpp:837-876` | What is left of a declaration has every word of the declared path, those in front of a conversion type included, exactly if no declarator is in the path |
| `ConversionNames.ConversionOperator` | `src/prune_symbol.cpp:606-661` | `s::operator type` is pruned to the class, `operator` and the type exactly if no declarator is in the type; with a declarator, to what that declares; and it is left as it is if the type cannot be parsed |
| `ConversionNames.ConversionToFunctionPointer` | `src/prune_symbol.cpp:606-661` | `S::operator int (*)(double)()` is left as it is |
| `UnreadableTexts.UnreadableIsLeft` | `src/prune_symbol.cpp:939-973` | Every text in which, behind any number of tokens, comes a place where no token can be read is left as it is |
| `PruningExamples.TemplateMemberName` | `src/prune_symbol.cpp:901-934` | Any text of the form `a::b<...>::c(...)` is pruned to `a::b::c`, whatever nests in the list and in the parentheses |
| `PruningExamples.OperatorIsRecognized` | `src/prune_symbol.cpp:631-646` | An operator is recognized exactly if what is printed after it makes no longer operator of it |
| `PruningExamples.ListIsOpened` | `src/prune_symbol.cpp:532-540` | `<` opens a list exactly if it is not the start of a longer operator |
| `PruningExamples.LessThanBeforeList` | `test/unit/lib/prune_symbol.cpp:154-154` | The input that the tests mark as failing is left as it is |
| `PruningExamples.ScopeFirstInList` | `src/prune_symbol.cpp:63-78` | So is a template whose first argument starts with `::` |
| `PruningExamples.LessThanInList` | `test/unit/lib/prune_symbol.cpp:227-227` | So is a template with `operator<` in front of a list among its arguments, the form that the tests mark as failing |
| `NameQuotes.EnquotedIsLiteral` | `src/prune_symbol.cpp:214-237` | Text between a backquote and a quote is one string exactly if its own backquotes and quotes balance and it is not the tag |
| `NameReading.PathReads` | `src/prune_symbol.cpp:901-934` | The name of a path, as a text, reads as a path again, up to names in angle brackets and `operator<` before `::`, which read as something that cannot be parsed |
| `PruningTwice.PruningAgain` | `src/prune_symbol.cpp:960-973` | Pruning what pruning left of any declaration changes nothing: any run of references, declarators in conversions and names that cannot be parsed included |
| `SpelledForms.WordIsRead` | `src/prune_symbol.cpp:289-302` | A word ends exactly where no letter, digit, underscore or dollar sign follows |
| `SpelledForms.NumberIsRead` | `src/prune_symbol.cpp:193-212` | A number ends exactly where no letter, digit, quote, sign or dot follows |
| `SpelledForms.SpaceIsSkipped` | `src/prune_symbol.cpp:313-315` | Exactly the six whitespace characters of ASCII are skipped |
| `SpelledForms.SpacesAreLeft` | `src/prune_symbol.cpp:960-973` | A text of whitespace is left as it is |
| `SpelledForms.LongOperatorIsRead` | `src/prune_symbol.cpp:63-78` | Of two and three characters, exactly the listed operators are one token |
| `SpelledForms.QuotedIsRead` | `src/prune_symbol.cpp:239-262` | A quoted string ends at the first quote that no backslash skips with the character after it; without one it is an error |
| `SpelledForms.WordBehindName` | `src/prune_symbol.cpp:103-105` | In every text of the form `a::b(...) word` exactly `const`, `volatile`, `decltype` and `noexcept` are dropped; with any other word, that word is what is left |
| `SpelledForms.OperatorBehindName` | `src/prune_symbol.cpp:486-500` | In `a::b(...) op` exactly `*`, `&` and `&&` are dropped; with any other operator that opens nothing there, the text is left as it is |
| `SpelledForms.ConventionInDeclarator` | `src/prune_symbol.cpp:107-117` | In every text of the form `t (word *f(...))(...)` exactly the six calling conventions leave `f`; any other word leaves `t` |
| `SpelledForms.PointerInDeclarator` | `src/prune_symbol.cpp:837-876` | In `t (p f(...))(...)` exactly `*`, `&` and `&&` leave `f`; anything else that is no parenthesis leaves `t` |
| `SpelledParts.PartsArePruned` | `src/prune_symbol.cpp:901-934` | Any number of parts joined by `::`, each with brackets and a qualifier behind it or without, are pruned to their names: words, both spellings of anonymous namespaces, lambdas and unnamed types of three compilers, functions in quotes, and operators, all spelled out |
| `SpelledParts.QuotedWord` | `src/prune_symbol.cpp:752-785` | A word in single quotes is put in angle brackets exactly if it starts with `lambda` or `unnamed`, and is left as it is otherwise |
| `LruCaches.LruCache.constructor` | `src/utils/lru_cache.hpp:26-28` | An empty cache; a maximum of 0 is ruled out by the VERIFY |
| `LruCaches.LruCache.SetMaxSize` | `src/utils/lru_cache.hpp:30-34` | Fails exactly for 0 and then changes nothing; otherwise only the least recent entries are dropped |
| `LruCaches.LruCache.MaybeTouch` | `src/utils/lru_cache.hpp:36-43` | A listed key moves to the front, past the nodes before it; nothing else moves or is lost |
| `LruCaches.LruCache.MaybeGet` | `src/utils/lru_cache.hpp:45-53` | Found exactly if listed; the reference is to the first node, which has the key |
| `LruCaches.LruCache.Set` | `src/utils/lru_cache.hpp:65-73` | The first node has the key and the value; for an existing key it is its own node, moved to the front, and for a new one a new node, before those that fit; other values stay |
| `LruCaches.LruCache.Insert` | `src/utils/lru_cache.hpp:75-86` | Nothing happens if the key is there; otherwise the new entry is first and is never trimmed by its own insertion |
| `LruCaches.LruCache.Touch` | `src/utils/lru_cache.hpp:93-95` | Splicing moves one node to the front and keeps the nodes and the map |
| `LruCaches.LruCache.MaybeTrim` | `src/utils/lru_cache.hpp:97-103` | The loop leaves exactly the first max-size nodes, and the map keeps exactly their keys |
| `LruCaches.LinkedAfterTouch` | `src/utils/lru_cache.hpp:93-95` | Map and list stay in correspondence and the recency order is the specified one |
| `LruCaches.LinkedAfterPop` | `src/utils/lru_cache.hpp:97-103` | Removing the last node and its key keeps the correspondence |
| `LruInclusion.CapacityIsPrefix` | `src/utils/lru_cache.hpp:45-103` | For every run of get-or-insert, capacity c holds exactly the first min(c, n) entries of an unbounded cache |
| `LruInclusion.LargerHoldsMore` | `src/utils/lru_cache.hpp:45-103` | A larger capacity holds everything a smaller one holds, in the same order |
| `LruInclusion.OrderIsRecency` | `src/utils/lru_cache.hpp:93-95` | The list is ordered by last use: of two listed keys the one used later comes first, and exactly the used keys are listed |
| `LruInclusion.RunIsWellFormed` | `src/utils/lru_cache.hpp:45-103` | In every run no key is listed twice and every value is the one loaded for its key |
| `SortedSearch.UpperBound` | `src/utils/utils.hpp:66-74` | The halving search splits the keys at the first one above the value |
| `SortedSearch.FirstLessThanOrEqual` | `src/utils/utils.hpp:66-74` | Finds the last key that is at most the value, or nothing if there is none |
| `SortedSearch.LastAtMostIsUnique` | `src/utils/utils.hpp:66-74` | There is only one such position, so callers may rely on it |
| `DwarfRanges.PcInDie` | `src/symbols/dwarf/dwarf.hpp:449-459` | True exactly if the pc is at or behind the low end of some range and before its high end |
| `DwarfRanges.GetRangelistEntries` | `src/symbols/dwarf/dwarf.hpp:430-447` | The in-place merging loop gives the coalesced ranges |
| `DwarfRanges.CoalescingIsExact` | `src/symbols/dwarf/dwarf.hpp:430-447` | For forward ranges, of which none that ends at the last address is followed by one that starts at 0, coalescing keeps every address and adds only single-byte gaps between neighbours |
| `DwarfRanges.CoalescedAreApart` | `src/symbols/dwarf/dwarf.hpp:430-447` | No coalesced range starts at the end of the one before it or one address behind it |
| `DwarfRanges.KeepsExactlyWithoutWrap` | `src/symbols/dwarf/dwarf.hpp:430-447` | For non-empty disjoint ranges every address is kept exactly if none that ends at the last address is followed by one that starts at 0 |
| `DwarfRanges.WrappingLosesAddresses` | `src/symbols/dwarf/dwarf.hpp:439-440` | An input on which the unsigned subtraction wraps: two ranges merge into an empty one |
| `CuCache.RangeMap.AddItem` | `src/symbols/dwarf/dwarf_utils.hpp:83-87` | Appends the item and hands out its index; fails exactly when 2^32 - 1 items are reached |
| `CuCache.RangeMap.Insert` | `src/symbols/dwarf/dwarf_utils.hpp:88-90` | Appends one entry and changes nothing else |
| `CuCache.RangeMap.Finalize` | `src/symbols/dwarf/dwarf_utils.hpp:91-95` | Sorts the entries by low, keeping them all |
| `CuCache.RangeMap.Lookup` | `src/symbols/dwarf/dwarf_utils.hpp:100-113` | The item of the last entry whose low is at most the key |
| `CuCache.DwarfResolver.LookupCuByWalk` | `src/symbols/dwarf/dwarf_resolver.cpp:829-867` | The walk gives the last unit that holds the pc, because the list walk ignores the first stop |
| `CuCache.DwarfResolver.LazyGenerateCuCache` | `src/symbols/dwarf/dwarf_resolver.cpp:257-290` | After it the cache has exactly the coalesced ranges of all units, sorted; it runs once |
| `CuCache.DwarfResolver.AddUnit` | `src/symbols/dwarf/dwarf_resolver.cpp:277-283` | Appends exactly the coalesced ranges of the unit, in order, under one new handle that stands for the unit |
| `CuCache.DwarfResolver.LookupCu` | `src/symbols/dwarf/dwarf_resolver.cpp:825-895` | Any unit found holds the pc; memory mode answers with the last unit that has a range with the pc, speed mode with what the sorted index gives; it succeeds unless handles run out, and both modes agree while the last holder is not hidden, whatever the ranges are |
| `CuCache.CacheAgrees` | `src/symbols/dwarf/dwarf_resolver.cpp:869-893` | If no last holder is hidden, the sorted search with its final test finds the unit the walk finds, whichever order equal keys were sorted in |
| `CuCache.CachedLookupIsExact` | `src/symbols/dwarf/dwarf_resolver.cpp:869-893` | For any units, the cached lookup is right for every sorted index exactly if the last unit that holds the pc has coalesced ranges that start at or before the pc, and none of another unit starts there at or behind the last of these |
| `CuCache.DisjointUnitsAreNotHidden` | `src/symbols/dwarf/dwarf_resolver.cpp:257-290` | Units whose coalesced ranges are non-empty and disjoint hide none |
| `CuCache.EmptyRangeHidesUnit` | `src/symbols/dwarf/dwarf_resolver.cpp:869-893` | An empty range of one unit hides the unit around it |
| `CuCache.InnerRangeHidesUnit` | `src/symbols/dwarf/dwarf_resolver.cpp:869-893` | So does a range inside it, for every pc behind that range |
| `LineTables.BuildLineEntries` | `src/symbols/dwarf/dwarf_resolver.cpp:642-665` | The scan-ahead loop and the sort give exactly one entry for the last row of every run, in the order that the sort gives them |
| `LineTables.TableAnswers` | `src/symbols/dwarf/dwarf_resolver.cpp:687-697` | The search answers with a run end of greatest address at most the pc, however equal addresses were sorted |
| `LineTables.AscendingAnswer` | `src/symbols/dwarf/dwarf_resolver.cpp:646-661` | For ascending rows that is the last row at or below the pc, and there is no other answer |
| `LineTables.LineResolver.GetLineTable` | `src/symbols/dwarf/dwarf_resolver.cpp:597-669` | A reference to the right table of the unit, from the cache or built, or none if the unit has none |
| `LineTables.LineResolver.RetrieveLineInfo` | `src/symbols/dwarf/dwarf_resolver.cpp:673-726` | For all rows, in any order: the line, the column (both modulo 2^32) and the path of a run end of greatest address at most the pc, the one that the rows, the sort and the pc decide whatever was looked up, filled in or evicted before; without one the frame stays |
| `LineTables.FilledIn` | `src/symbols/dwarf/dwarf_resolver.cpp:699-725` | Filling in fields of an entry keeps the table sorted and right |
| `Inlines.WalkToTarget` | `src/symbols/dwarf/dwarf.hpp:475-493` | The sibling walk stops at the first inlined call or block that holds the pc |
| `Inlines.GetInlinesInfo` | `src/symbols/dwarf/dwarf_resolver.cpp:352-431` | The loop equals a recursive descent: inlined calls at the pc, outermost first, each with its call site |
| `Inlines.DescentFindsAll` | `src/symbols/dwarf/dwarf_resolver.cpp:352-431` | If a child that holds the pc lies in a parent that holds it, and at most one sibling does, the one path finds every inlined call at the pc |
| `Inlines.InlinesAreOnWayDown` | `src/symbols/dwarf/dwarf_resolver.cpp:352-431` | The frames are the inlined calls, in order, of the way down on which each entry is the first child of the one before that is an inlined call or a block and has a range with the pc |
| `Inlines.CallIsReported` | `src/symbols/dwarf/dwarf_resolver.cpp:361-413` | A call is reported with the name, the line and the column of its entry, modulo 2^32 and 0 if missing, and no address |
| `Inlines.CallNamesFile` | `src/symbols/dwarf/dwarf_resolver.cpp:376-408` | File numbers name the files from 1 on in tables of other versions than 5, and from 0 on in version 5 and without a table; any other number names none |
| `Inlines.RotateLocations` | `src/symbols/symbols_with_libdwarf.cpp:67-82` | The in-place shift moves each location one place on and the last to the front |
| `Inlines.FlattenInlines` | `src/symbols/symbols_with_libdwarf.cpp:54-86` | The flat trace has the frames of each entry, inlined functions first, at the offset of the entry: as many frames behind the start as all entries before it have; and no other frames |
| `Inlines.FlattenedInlines` | `src/symbols/symbols_with_libdwarf.cpp:54-86` | Resolved and flattened, the innermost function has the location of the pc and every other one the call site of the function just inside it |
| `Inlines.OffsetsAreInOrder` | `src/symbols/symbols_with_libdwarf.cpp:54-86` | Each entry starts where the frames of the one before it end |
| `Inlines.FlatConcat` | `src/symbols/symbols_with_libdwarf.cpp:54-86` | Two traces one after the other are flattened to their flat traces one after the other |
| `ResolveFrames.CollateFrames` | `src/symbols/symbols_core.cpp:15-32` | Each object has one group that lists exactly its frames in trace order |
| `ResolveFrames.PositionsAreExact` | `src/symbols/symbols_core.cpp:21-30` | A group is strictly increasing and holds exactly the positions of its path, so the groups are a partition |
| `ResolveFrames.TryResolveJitFrame` | `src/symbols/symbols_with_libdwarf.cpp:88-99` | Only the one slot changes, to what its frame alone decides |
| `ResolveFrames.TryResolveFrame` | `src/symbols/symbols_with_libdwarf.cpp:101-151` | Only the one slot changes: resolver, basic information after an absorbed exception, then the symbol table |
| `ResolveFrames.ResolveGroup` | `src/symbols/symbols_with_libdwarf.cpp:124-156` | Exactly the slots of the group change; an exception leaves the later ones blank |
| `ResolveFrames.Resolve` | `src/symbols/symbols_with_libdwarf.cpp:117-179` | For every visiting order of the groups the same flattened trace, in which the frames of each address stand at their offset; exceptions escape exactly if some frame fails and they are not absorbed |
| `ResolveFrames.SlotsAreLocal` | `src/symbols/symbols_with_libdwarf.cpp:141-156` | A slot depends on its own frame only, unless an earlier frame of the same object threw; then it has the basic information |
| `ResolveFrames.PiecesResolveAlone` | `src/symbols/symbols_with_libdwarf.cpp:117-179` | When no lookup throws, resolving a trace in two pieces gives the same slots |
| `ResolveFrames.GeneratedCodeAddress` | `src/symbols/symbols_with_libdwarf.cpp:88-99` | A frame of generated code keeps its address exactly if no symbol is found for it |
| `ResolveFrames.ObjectFrameAlone` | `src/symbols/symbols_with_libdwarf.cpp:101-151` | A frame of an object file has what the resolver found; without a symbol, that of the symbol table; after an absorbed failure, what was known before |
| `ResolveFrames.GeneratedFrameAlone` | `src/symbols/symbols_with_libdwarf.cpp:88-99` | A frame of generated code has its symbol and nothing else, or what was known before |
| `ResolveFrames.ThrowsExactly` | `src/symbols/symbols_with_libdwarf.cpp:101-151` | A frame throws exactly if its symbol of generated code or its resolver does and is not absorbed, or if it has no symbol then and the symbol table of its object throws; it fails also if its object cannot be opened |
| `ResolveFrames.TraceInOrder` | `src/symbols/symbols_with_libdwarf.cpp:117-179` | A trace without inlined calls has one frame for each address, in the order of the addresses |
| `BlankFrames.FillBlanks` | `src/symbols/symbols_core.cpp:57-85` | Each blank frame gets the parts it lacks from what was found for its own address; other frames and present parts stay |
| `JitObjects.JitObjectManager.AddJitObject` | `src/jit/jit_objects.cpp:39-62` | The object is listed, each of its ranges is in the range list, which grows by their number, and nothing else leaves it; a parse error of either step leaves the range list as it is |
| `JitObjects.JitObjectManager.InsertRanges` | `src/jit/jit_objects.cpp:57-61` | Every insertion keeps the list sorted and adds exactly one range |
| `JitObjects.JitObjectManager.RemoveJitObject` | `src/jit/jit_objects.cpp:64-82` | Objects and ranges of the pointer go, all others stay in order and as often as they were there, and the list is still the ranges of the live objects |
| `JitObjects.JitObjectManager.Lookup` | `src/jit/jit_objects.cpp:84-102` | A range found holds the pc and starts last of those that do; one is found exactly if one holds the pc and none is hidden; for non-empty disjoint ranges every pc in a range of a live object is found with that object |
| `JitObjects.JitObjectManager.ClearAllJitObjects` | `src/jit/jit_objects.cpp:104-107` | Both lists are empty |
| `JitObjects.JitObjectManager.RegisterAndUnregister` | `src/jit/jit_objects.cpp:39-82` | Registering an object and unregistering its pointer, which no registered object has, restores both lists exactly |
| `JitObjects.RemovalKeepsCorrespondence` | `src/jit/jit_objects.cpp:64-82` | After removal the ranges are still exactly those of the objects left |
| `JitObjects.NoDanglingRanges` | `src/jit/jit_objects.cpp:26-36` | Every listed range belongs to a live object |
| `JitObjects.EntriesAreCounted` | `src/jit/jit_objects.cpp:57-61` | An entry is among those of the live objects exactly as often as their ranges list it |
| `JitObjects.RangeIsListed` | `src/jit/jit_objects.cpp:39-62` | Every range of a live object is listed, under its pointer |
| `JitObjects.LookupIsExact` | `src/jit/jit_objects.cpp:84-102` | The sorted search finds a range that holds the pc exactly if there is one and behind the last of them no range comes that starts at or before the pc and has ended |
| `JitObjects.InnerRangeHides` | `src/jit/jit_objects.cpp:84-102` | A range inside another one hides it from its own end on |
| `JitObjects.LookupIsScan` | `src/jit/jit_objects.cpp:84-102` | For disjoint ranges the sorted search finds what a linear scan finds |
| `NumberText.Clz` | `src/utils/microfmt.hpp:26-41` | The count of leading zeros places the word between two powers of two |
| `NumberText.DigitCount` | `src/utils/microfmt.hpp:77-82` | For shift 1, 3 and 4 the digit count computed from the leading zeros is exact for every word |
| `NumberText.ToString` | `src/utils/microfmt.hpp:72-92` | The loop writes each index of the buffer once, from the last to the first, and the buffer is the numeral |
| `NumberText.NumeralReadsBack` | `src/utils/microfmt.hpp:72-92` | Reading the digits back gives the value, and the first digit is zero only for 0 |
| `NumberText.SignedReadsBack` | `src/utils/microfmt.hpp:163-174` | A signed number in any base reads back as itself |
| `Microfmt.Padded` | `src/utils/microfmt.hpp:56-70` | The text is whole at its side of the field and the rest is fill |
| `Microfmt.Write` | `src/utils/microfmt.hpp:158-191` | Appends the padded text of the value; what that is, is told in FormatFields |
| `Microfmt.UnwrapInt` | `src/utils/microfmt.hpp:148-154` | Numbers of either kind that fit an int are kept; others are congruent modulo 2^32; anything else is 0 |
| `Microfmt.ReadNumber` | `src/utils/microfmt.hpp:203-217` | Takes the whole run of digits and its value, or -1 and no move |
| `Microfmt.ReadWidth` | `src/utils/microfmt.hpp:230-240` | The optional width, from digits or from an argument, which is used up |
| `Microfmt.ReadTail` | `src/utils/microfmt.hpp:241-254` | The optional fill and base |
| `Microfmt.HandleFormatter` | `src/utils/microfmt.hpp:223-262` | Reads and writes one formatter; after a failure only used arguments are lost |
| `Microfmt.Format` | `src/utils/microfmt.hpp:197-270` | The loop over every format string stays in bounds, ends, and writes what the recursive reading says |
| `FormatTemplates.FormatShown` | `src/utils/microfmt.hpp:197-270` | Printing any template of literals and formatters and formatting it renders the template |
| `FormatTemplates.HoleShown` | `src/utils/microfmt.hpp:223-262` | A printed formatter is read back with its options, whatever follows it |
| `FormatTemplates.FormattingUndoesEscaping` | `src/utils/microfmt.hpp:219-220` | Doubling every brace and formatting gives the text back, for any arguments |
| `FormatTemplates.ArgumentsAreConsumed` | `src/utils/microfmt.hpp:239-260` | Arguments are used in order and at most once: the rest of the format goes on as if only the unused ones existed |
| `FormatTemplates.FailureMayUseArgument` | `src/utils/microfmt.hpp:234-240` | A malformed formatter uses up an argument exactly if a width from an argument was read before |
| `FormatTemplates.FailedFormatterLosesWidth` | `src/utils/microfmt.hpp:263-266` | A format string on which such a failure shifts the later arguments |
| `FormatFields.TextIsInBase` | `src/utils/microfmt.hpp:94-102` | A number is written with the digits of its base, in lower or upper case, and reads back as itself: 16 for `h` and `H`, 8 for `o`, 2 for `b`, and 10 for every other letter |
| `FormatFields.ReadingExamples` | `src/utils/microfmt.hpp:72-92` | How digits read: 40 is 64 and c0 is 192 in base 16, and 27 is 27 in base 10 |
| `FormatFields.ArgumentIsWritten` | `src/utils/microfmt.hpp:158-191` | For a formatter of any alignment, width, fill and base, told by its characters: numbers in the base of the letter, strings and characters as they are, at their side of the field |
| `FormatFields.FieldIsWritten` | `src/utils/microfmt.hpp:56-70` | The field is as wide as the digits of the width say, if the text is not wider, with the text at the side of the alignment and the fill in the rest |
| `FormatFields.AddressFormat` | `src/formatting.cpp:336-346` | The format of addresses writes 0x and sixteen lower-case hexadecimal digits that read back as the address, whatever surrounds it |
| `FormatFields.PlainText` | `src/utils/microfmt.hpp:219-269` | Text without braces is written as it is |
| `FormatFields.Braces` | `src/utils/microfmt.hpp:219-220` | A doubled brace stands for one, and a closing brace alone for itself |
| `FormatFields.NoFormatter` | `src/utils/microfmt.hpp:255-266` | A single character with no meaning in a formatter makes none, and is written with its braces |
| `FormatFields.NoArgument` | `src/utils/microfmt.hpp:258-260` | A formatter with no argument left writes nothing |
| `ReplaceAll.Find` | `src/utils/replace_all.cpp:7-7` | The first occurrence at or behind the position |
| `ReplaceAll.ReplaceAllSubstrings` | `src/utils/replace_all.cpp:5-11` | The in-place loop replaces every occurrence, from the left without overlaps |
| `ReplaceAll.PiecesStay` | `src/utils/replace_all.cpp:5-11` | Pieces joined by the pattern become the same pieces joined by the replacement |
| `ReplaceAll.ReplaceAllDynamic` | `src/utils/replace_all.cpp:22-30` | The in-place loop that steps by one equals the recursive reading; it ends if the replacement does not bring the pattern behind its first character, or if there is nothing to replace |
| `ReplaceAll.ReplacingGoesOn` | `src/utils/replace_all.cpp:22-30` | For every other pair each replacement leaves another occurrence to replace, so the loop never ends |
| `Prettifying.FoldingDeletesInnerSpaces` | `src/formatting.cpp:23-26` | For `> >` exactly the spaces between two closing brackets of the original text are deleted |
| `Prettifying.FoldingLeavesNone` | `src/formatting.cpp:23-26` | One pass leaves no `> >`, not even one made by a replacement |
| `Prettifying.FoldingTwice` | `src/formatting.cpp:23-26` | A second pass changes nothing |
| `Prettifying.WhatSubstitutingLeaves` | `src/utils/replace_all.cpp:22-30` | When the replacement is a start of the pattern, one pass leaves an occurrence exactly if the text had one followed by the dropped part |
| `Prettifying.FoldingMarkedIsSubstituting` | `src/utils/replace_all.cpp:22-30` | For such pairs the step by one finds nothing more than plain replacement |
| `Prettifying.InlineNamespaceFolding` | `src/formatting.cpp:55-57` | One pass over `std::__cxx11::` leaves one exactly if the text had `std::__cxx11::__cxx11::` |
| `ReplaceAll.FindClose` | `src/utils/replace_all.cpp:41-47` | The bracket scan ends where the depth count says |
| `ReplaceAll.ReplaceAllTemplate` | `src/utils/replace_all.cpp:32-52` | For any search, each match and the arguments it opens become the replacement; the loop ends |
| `ReplaceAll.ScanIsShortest` | `src/utils/replace_all.cpp:41-47` | The scan stops at the shortest start in which closing brackets outnumber opening ones |
| `ReplaceAll.ArgumentsAreReplaced` | `src/utils/replace_all.cpp:32-52` | A match disappears together with its nested arguments and the bracket that closes them |
| `Snippets.LinesJoinBack` | `src/snippets/snippet.cpp:70-88` | Lines and their terminators concatenate to the contents |
| `Snippets.LinesAreNewlines` | `src/snippets/snippet.cpp:70-88` | One line per newline and one more; terminators are a newline or a carriage return and newline, the latter whenever there is one, and none for the last line |
| `Snippets.SnippetManager.BuildLineTable` | `src/snippets/snippet.cpp:70-88` | The table locates exactly those lines one after the other, with begin at most end |
| `Snippets.NextLine` | `src/snippets/snippet.cpp:80-85` | The test for a carriage return never reaches before the line, because a newline or nothing is there |
| `Snippets.SnippetManager.GetLine` | `src/snippets/snippet.cpp:53-60` | The text of the line; it runs off the table exactly for the number just past it |
| `Snippets.GetLines` | `src/snippets/snippet.cpp:113-133` | The window and its trimming, sums that wrap around included, and the exact condition under which trimming stays in bounds |
| `Snippets.TargetInside` | `src/snippets/snippet.cpp:113-133` | For a target inside the file and a sum that does not wrap around: the window has context lines on each side of the target as far as there are any, each with its text; the target is between the ends; exactly the blank lines at either end, up to the target, are trimmed |
| `Snippets.TargetIsShown` | `src/snippets/snippet.cpp:113-133` | The target is between the ends exactly if the sum of target and context does not wrap around |
| `CurrentException.LazyTraceHolder.Assign` | `src/exceptions.cpp:29-48` | The holder has what the other one has |
| `CurrentException.LazyTraceHolder.GetRawTrace` | `src/exceptions.cpp:58-65` | The raw trace, or a logic error once resolved |
| `CurrentException.LazyTraceHolder.GetResolvedTrace` | `src/exceptions.cpp:66-84` | A non-empty raw trace gives, and leaves held, what the resolver returns for it in one call; an empty one or a standard exception gives and leaves an empty trace; any other exception escapes and leaves one; a resolved trace is given as it is |
| `CurrentException.ThreadState.SaveCurrentTrace` | `src/from_current.cpp:38-45` | With the switch on only the rethrow trace changes; with it off the rethrow trace is emptied |
| `CurrentException.ThreadState.SetupRethrow` | `src/from_current.cpp:343-347` | Only the switch is set |
| `CurrentException.ThreadState.RethrowScopeCleanup` | `src/from_current.cpp:339-341` | Only the switch is cleared |
| `CurrentException.ThreadState.FromCurrentException` | `src/from_current.cpp:423-425` | The resolver's answer for the trace of the current exception, which is then held |
| `CurrentException.ThreadState.FromCurrentExceptionRethrow` | `src/from_current.cpp:431-433` | The same for the rethrow trace |
| `CurrentException.ThreadState.CurrentExceptionWasRethrown` | `src/from_current.cpp:435-441` | Reads whichever form is held and changes nothing |
| `CurrentException.ThreadState.ClearCurrentExceptionTraces` | `src/from_current.cpp:454-457` | Both traces are empty and unresolved |
| `RethrowHistory.TraceHistory` | `src/from_current.cpp:30-45` | In every run each holder has the trace of the last event that stored one; if asked for since, what the resolver returns for that trace, or an empty trace if it is empty or resolving fails |
| `RethrowHistory.SwitchHistory` | `src/from_current.cpp:338-347` | The switch is on exactly if a rethrow began and did not end |
| `RethrowHistory.ResolvedAtFirstAsk` | `src/exceptions.cpp:66-84` | Of all events only the first request after a trace was stored makes a call, and none for an empty trace |
| `RethrowHistory.ResolvedAtMostOnce` | `src/exceptions.cpp:66-84` | In every run calls made and calls still possible do not exceed the saves |
| `RethrowHistory.WasRethrownHistory` | `src/from_current.cpp:435-441` | The answer tells whether a non-empty rethrow trace is stored, exactly unless it was resolved to nothing |
| `RethrowHistory.AskingMayChangeTheAnswer` | `src/from_current.cpp:435-441` | Resolving changes the answer exactly for a non-empty trace that resolves to nothing |
| `RethrowHistory.RethrowKeepsTrace` | `src/from_current.cpp:443-452` | A rethrow keeps the trace of the throw, and the last trace collected on the way becomes the rethrow trace |

## Left out

- Tokenizer.SymbolTokenizer.ParseQuotedString: the skip over an escape is clamped to the end of the text, where the source would step past it.
- PruningProof.PruneDeclaration: not declarations here are: a declarator in front of `::` in a conversion's type or in the first of two words of one; references behind an operator symbol or a declarator; and lambdas whose number is not digits or whose quoted name is not a single word.
- Prettifying.WhatSubstitutingLeaves: only patterns whose first character occurs once in them, such as `std::__cxx11::`; the other pair that the source uses, `> >`, has results of its own.
- ReplaceAll.ReplaceAllSubstrings: an empty pattern is excluded, because the loop then never ends.
- NumberText.SignedReadsBack: does not model that negating the smallest 64-bit number overflows in the source.
- Microfmt.Write: the same for printing that number.
- CurrentException.LazyTraceHolder.Assign: assigning a holder to itself is excluded; the source destroys the trace before it copies it.
- CuCache.DwarfResolver.LookupCu: no address-range section, no skeleton units, no change of the cache mode during a run, and one entry per unit.
- LineTables.LineResolver.RetrieveLineInfo: speed mode only; the line scan of memory mode goes on after a hit and need not agree with the table.
- DwarfRanges.GetRangelistEntries: the ranges arrive as a list; decoding them from the DWARF 4 and 5 forms is libdwarf's and not modelled.
- Inlines.GetInlinesInfo: entries form a tree with names resolved; references to specifications and abstract origins and split DWARF are not followed.
- Microfmt.ReadNumber: does not model the overflow of `int` that a width of more than nine digits can cause.
- ResolveFrames.Resolve: resolvers are deterministic; that their caches do not change answers is proved for the unit cache and the line tables only.
- BlankFrames.FillBlanks: the fallback resolver gives one frame for each address, in order, and each depends on its address only.
- ReplaceAll.ReplaceAllTemplate: the search sees the text from the cursor on and finds a non-empty match, as the four rules do.
- JitObjects.JitObjectManager.AddJitObject: parsing is given as its outcome, and logging of a dropped error is left out.
- CurrentException.ThreadState: one thread; capturing frames, the type-info patching and the exception filters depend on the platform.
- The subprogram cache and the recursive symbol walk, which need not agree on nested subprograms.
- The rules of prettify_symbol that are regular expressions; template replacement takes the search as a parameter.
- `split`, `join`, `trim` and the other string helpers, and colour, margins and carets of printed snippets.
- Reading files and object formats, demangling, unwinding, the C interface, options and formatter settings.
