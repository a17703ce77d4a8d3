# BAML core in Dafny

This project models parts of the BAML toolchain in Dafny and proves properties
of them. Every part modelled here is a deterministic computation over immutable
values:

- **The field-type algebra** (`FieldTypes`, with helpers in `Strings`). It covers:
  - the closed set of primitive `TypeValue`s, with their name parser and printer;
  - the recursive `FieldType` and its canonical text form;
  - the structural predicates `is_primitive`, `is_optional` and `is_null`.
- **The function and template-string validation pass** (`Diagnostics`,
  `Declarations`, `TypeEnv`, `Validation`). It is one walk over the declarations:
  1. It builds a type registry from every class and template string.
  2. It checks each template string's body.
  3. It checks each function: argument types, client, prompt metadata and prompt body.

  Along the way it opens and closes a variable scope around every body. It
  records errors and warnings without stopping. It moves the template checker's
  findings from template-relative offsets to file offsets.
- **The Ruby/Sorbet type printer** of the code generator (`RubyTypes`).
- **Tracing helpers of the runtime**:
  - UTF-8-aware middle elision of long log text (`Truncation`);
  - how a finished span becomes a log record (`LogSchema`): the root, event and
    parent ids drawn from the span chain, the error attached to an LLM function
    result, and the tag map of the record's context.

Everything is immutable datatypes and pure functions. The validation pass is a
fold over the template strings and then over the functions. The fold threads a
`PassState` that holds three things:
- the diagnostics so far;
- the type environment (registry, scope stack, transient checker error buffer);
- the list of template-checker invocations, each with the environment it saw.

Several parts of the pass have no source in this model:
- the template checker itself;
- per-type validation;
- the mapping from a written type to a template type;
- the database's client resolution.

They are parameters. The first three are the functions in `Validation.Hooks`.
Client resolution is the boolean `clientSpecResolves` on each function
declaration.

Two behaviours of the code are easy to misread, and the model keeps them as written:
- `is_primitive` recurses through any number of list and optional layers
  (`field_type/mod.rs:97-98`), so a list of optional lists of int is primitive.
- The `continue` after the missing-client error (`functions.rs:91`) skips the
  prompt check too. A function with neither a client nor a prompt therefore gets
  only "Client metadata is missing.".

## Model

| member | source | states |
|---|---|---|
| FieldTypes.FromStr | engine/baml-lib/baml-types/src/field_type/mod.rs:16-27 | A name parses exactly when it is one of the seven primitive names, and then it parses to the value printed under that name |
| FieldTypes.TypeValueName | engine/baml-lib/baml-types/src/field_type/mod.rs:29-40 | Every primitive prints as one of the seven primitive names |
| FieldTypes.TypeValueRoundTrip | engine/baml-lib/baml-types/src/field_type/mod.rs:16-40 | Parsing a primitive's printed name gives back that primitive |
| FieldTypes.TypeValueNameInjective | engine/baml-lib/baml-types/src/field_type/mod.rs:29-40 | Distinct primitives print differently |
| FieldTypes.Display | engine/baml-lib/baml-types/src/field_type/mod.rs:57-91 | The canonical text. Its properties are proved in DisplayBalanced, DisplayLastChar, SingletonUnionTupleAlias and the display examples |
| FieldTypes.DisplayBalanced | engine/baml-lib/baml-types/src/field_type/mod.rs:57-91 | When class and enum names are identifiers, the text of any type has as many closing as opening parentheses, square brackets and angle brackets |
| FieldTypes.DisplayLastChar | engine/baml-lib/baml-types/src/field_type/mod.rs:57-91 | When class and enum names are identifiers, the last character of a type's text identifies its outer constructor: `?` exactly for optionals, `]` exactly for lists, `>` exactly for maps, `)` exactly for unions and tuples, an identifier character exactly for primitives, classes and enums |
| FieldTypes.SingletonUnionTupleAlias | engine/baml-lib/baml-types/src/field_type/mod.rs:64-85 | A one-member union and a one-member tuple print the same text: the member in parentheses |
| FieldTypes.DisplayExamples | engine/baml-lib/baml-types/src/field_type/mod.rs:60-88 | An optional class prints as `Foo?`, a map as `map<string, int>`, a list as `bool[]` |
| FieldTypes.DisplayUnionExample | engine/baml-lib/baml-types/src/field_type/mod.rs:64-74 | The union of string and int prints as `string`, a spaced vertical bar, then `int`, all in parentheses |
| FieldTypes.DisplayTupleExample | engine/baml-lib/baml-types/src/field_type/mod.rs:75-85 | The tuple of string and int prints as `(string, int)`: members in order, separated by `, `, in parentheses |
| FieldTypes.IsPrimitive | engine/baml-lib/baml-types/src/field_type/mod.rs:94-101 | `is_primitive`. Its properties are proved in IsPrimitiveWrap, IsPrimitiveIffPrimitiveCore and IsPrimitiveWrapped |
| FieldTypes.IsOptional | engine/baml-lib/baml-types/src/field_type/mod.rs:103-111 | `is_optional`. Its properties are proved in IsOptionalUnion, IsOptionalUnionAppend and IsOptionalShallow |
| FieldTypes.IsNull | engine/baml-lib/baml-types/src/field_type/mod.rs:113-119 | `is_null`. Its properties are proved in IsNullIffOptionalSpineOverNull and IsNullImpliesIsOptional |
| FieldTypes.SpineDecomposition | engine/baml-lib/baml-types/src/field_type/mod.rs:94-101 | Every type is a core that is neither a list nor an optional, under a stack of list and optional layers |
| FieldTypes.IsPrimitiveWrap | engine/baml-lib/baml-types/src/field_type/mod.rs:97-98 | Adding list or optional layers never changes whether a type is primitive |
| FieldTypes.IsPrimitiveIffPrimitiveCore | engine/baml-lib/baml-types/src/field_type/mod.rs:94-101 | `is_primitive` holds exactly when the core under the list/optional layers is a primitive; a map, union, tuple, class or enum there makes it false |
| FieldTypes.IsPrimitiveWrapped | engine/baml-lib/baml-types/src/field_type/mod.rs:94-101 | Any stack of list and optional layers over a primitive is primitive |
| FieldTypes.AnyOptionalExists | engine/baml-lib/baml-types/src/field_type/mod.rs:108 | The member scan of a union is true exactly when some member from that position on is optional |
| FieldTypes.IsOptionalUnion | engine/baml-lib/baml-types/src/field_type/mod.rs:108 | A union is optional exactly when at least one member is |
| FieldTypes.IsOptionalUnionAppend | engine/baml-lib/baml-types/src/field_type/mod.rs:108 | Optionality of a union splits as a disjunction over any split of its members |
| FieldTypes.IsOptionalShallow | engine/baml-lib/baml-types/src/field_type/mod.rs:103-111 | Lists, maps, tuples, classes and enums are never optional, whatever they contain |
| FieldTypes.IsNullIffOptionalSpineOverNull | engine/baml-lib/baml-types/src/field_type/mod.rs:113-119 | `is_null` holds exactly for the null primitive under optional layers only |
| FieldTypes.IsNullImpliesIsOptional | engine/baml-lib/baml-types/src/field_type/mod.rs:103-119 | Every null type is optional |
| FieldTypes.PredicateAsymmetry | engine/baml-lib/baml-types/src/field_type/mod.rs:94-119 | A union holding null is optional but not null; a list of lists of int is primitive; a list of maps is not |
| RubyTypes.ToRuby | engine/language_client_codegen/src/ruby/field_type.rs:6-47 | The translation is total and never empty |
| RubyTypes.PrimitiveToRuby | engine/language_client_codegen/src/ruby/field_type.rs:15-26 | The primitive table. It is proved in ToRubyPrimitiveTable and PrimitiveToRubyInjective |
| RubyTypes.ToRubyPrimitiveTable | engine/language_client_codegen/src/ruby/field_type.rs:15-26 | The primitive table: bool, float, int, string, null, image and audio map to `T::Boolean`, `Float`, `Integer`, `String`, `NilClass`, `Baml::Image` and `Baml::Audio` |
| RubyTypes.PrimitiveToRubyInjective | engine/language_client_codegen/src/ruby/field_type.rs:15-26 | Distinct primitives map to distinct Ruby classes |
| RubyTypes.EnumIsUnionWithString | engine/language_client_codegen/src/ruby/field_type.rs:8-35 | An enum is annotated exactly like the union of its generated class and `String` |
| RubyTypes.NilableIffOptional | engine/language_client_codegen/src/ruby/field_type.rs:6-47 | An annotation starts with `T.nilable(` exactly when the type is optional |
| RubyTypes.PrintersAgreeOnOptional | engine/language_client_codegen/src/ruby/field_type.rs:45 | When class and enum names are identifiers, the Ruby annotation is nilable exactly when the canonical text ends in `?` |
| RubyTypes.ToRubyBalanced | engine/language_client_codegen/src/ruby/field_type.rs:6-47 | When names are identifiers, every annotation has balanced parentheses, square brackets and angle brackets |
| RubyTypes.ToRubyClassExample | engine/language_client_codegen/src/ruby/field_type.rs:8 | A class `Resume` is annotated `Baml::Types::Resume` |
| RubyTypes.ToRubyEnumExample | engine/language_client_codegen/src/ruby/field_type.rs:9 | An enum `Color` is annotated `T.any(Baml::Types::Color, String)` |
| RubyTypes.ToRubyListExample | engine/language_client_codegen/src/ruby/field_type.rs:11 | A list of int is annotated `T::Array[Integer]` |
| RubyTypes.ToRubyOptionalExample | engine/language_client_codegen/src/ruby/field_type.rs:45 | An optional image is annotated `T.nilable(Baml::Image)` |
| RubyTypes.ToRubyMapExample | engine/language_client_codegen/src/ruby/field_type.rs:12-14 | A map from string to float is annotated `T::Hash[String, Float]` |
| RubyTypes.ToRubyUnionExample | engine/language_client_codegen/src/ruby/field_type.rs:27-35 | The union of int and a class `n` is annotated `T.any(Integer, Baml::Types::n)`: members in order, joined by `, ` |
| RubyTypes.ToRubyTupleExample | engine/language_client_codegen/src/ruby/field_type.rs:36-44 | The tuple of int and a class `n` is annotated `[Integer, Baml::Types::n]`: members in order, joined by `, ` |
| Truncation.OffsetsAreBoundaries | engine/baml-runtime/src/tracing/mod.rs:68-81 | Zero, the total byte length and the offset of every character are character boundaries |
| Truncation.CutPoints | engine/baml-runtime/src/tracing/mod.rs:67-81 | Both cut offsets are character boundaries. With half-limit `h` and `m` the smaller of `h` and the character count, they are the byte offset after the first `m - 1` characters and the byte offset before the last `m` characters; they fall back to 0 and the full length when `h` is 0 |
| Truncation.SlicesAtCuts | engine/baml-runtime/src/tracing/mod.rs:67-82 | With `m` the smaller of `h` and the character count, slicing at the cut offsets keeps the first `m - 1` and the last `m` characters, or nothing when `h` is 0 |
| Truncation.TruncateString | engine/baml-runtime/src/tracing/mod.rs:65-86 | The text is unchanged when the limit is 0 or the byte length is within it. Otherwise, with `m` the smaller of `h` and the character count, it is the first `m - 1` characters, the marker, then the last `m` characters; it is just the marker when `h` is 0 |
| Truncation.TruncateStringAsciiTests | engine/baml-runtime/src/tracing/mod.rs:93-100 | Ten digits under a limit of ten, and eleven digits with the limit 0, are left unchanged |
| Truncation.TruncateStringElisionTest | engine/baml-runtime/src/tracing/mod.rs:95-98 | Eleven digits under a limit of ten become `1234`, the marker, `78901` |
| Truncation.TruncateStringUnicodeTest | engine/baml-runtime/src/tracing/mod.rs:103-109 | Seven four-byte emoji under a limit of four become one emoji, the marker, two emoji |
| Truncation.TruncateStringOverlaps | engine/baml-runtime/src/tracing/mod.rs:65-86 | With fewer than `2h - 1` characters the result is longer than the text plus the marker |
| Truncation.TruncateStringRepeatsText | engine/baml-runtime/src/tracing/mod.rs:65-86 | Three four-byte emoji under a limit of ten become two emoji, the marker, then all three again |
| Truncation.TruncateStringDisjoint | engine/baml-runtime/src/tracing/mod.rs:65-86 | Corrected elision. It is unchanged when within the limit. Otherwise it is a prefix, the marker and a suffix that do not overlap, so it is never longer than the text plus the marker. It agrees with `TruncateString` whenever the text has at least `2h - 1` characters |
| LogSchema.ErrorFromResult | engine/baml-runtime/src/tracing/mod.rs:463-494 | No error exactly for a successful parse, or for an unparsed successful LLM response. A parse error or an unparsed LLM failure gives code 2 with that message |
| LogSchema.ParseOutcomeOverridesResponse | engine/baml-runtime/src/tracing/mod.rs:464-472 | Once parsing was attempted the LLM response no longer affects the error |
| LogSchema.ContextTags | engine/baml-runtime/src/tracing/mod.rs:404-417 | The tag map's keys are the input keys plus `baml.runtime`. `baml.runtime` maps to the runtime version, even over an input tag of that name. Every other key maps to its string or JSON text, or to `<unknown>` |
| LogSchema.ContextTagsIgnoreRuntimeInput | engine/baml-runtime/src/tracing/mod.rs:404-417 | An input tag named `baml.runtime` never reaches the record: setting it to any value, or removing it, leaves the tag map unchanged |
| LogSchema.ContextTagsInsert | engine/baml-runtime/src/tracing/mod.rs:404-417 | Adding an input tag under any name other than `baml.runtime` changes only that key, which maps to the tag's text |
| LogSchema.ToLogRecord | engine/baml-runtime/src/tracing/mod.rs:507-622 | Root id is the first span's, event id the last span's. There is a parent id exactly off the error path with two or more spans, and it is the second-to-last span's. The event type is LLM exactly for function results. On the error path the error is code 2 with the raised error's message. For a function result it is exactly what `error_from_result` gives. A plain value has none. The tags are exactly the context tag map of `ContextTags`, and the event chain is the span names, one per span, in order |
| LogSchema.NestedSpanLinksToPrevious | engine/baml-runtime/src/tracing/mod.rs:596-605 | Entering one more span keeps the root, makes the new span the event and, off the error path, the previous event its parent |
| LogSchema.TopLevelSpanIsRoot | engine/baml-runtime/src/tracing/mod.rs:552-560 | A span with no enclosing span is its own root and has no parent |
| Declarations.ClientNamesAreDeclared | engine/baml-lib/baml-core/src/validate/validation_pipeline/validations/functions.rs:10-14 | A name is a not-found candidate exactly when some declared client has it |
| TypeEnv.RegistryHoldsOnlyDeclarations | engine/baml-lib/baml-core/src/validate/validation_pipeline/validations/functions.rs:16-22 | Every registry entry is a declared class or a declared template string |
| TypeEnv.RegistryHoldsEveryDeclaration | engine/baml-lib/baml-core/src/validate/validation_pipeline/validations/functions.rs:16-22 | Every declared class and template string is registered, wherever it is declared |
| TypeEnv.ScopeRoundTrip | engine/baml-lib/baml-core/src/validate/validation_pipeline/validations/functions.rs:37-70 | Opening a scope, binding in it and closing it restores the environment |
| TypeEnv.ResolveStartScope | engine/baml-lib/baml-core/src/validate/validation_pipeline/validations/functions.rs:37 | Opening a scope hides nothing: every name resolves as before |
| TypeEnv.ResolveAddVariable | engine/baml-lib/baml-core/src/validate/validation_pipeline/validations/functions.rs:40 | After binding, the name resolves to the bound type, shadowing outer bindings, and every other name resolves as before |
| Validation.Report | engine/baml-lib/baml-core/src/validate/validation_pipeline/validations/functions.rs:48-67 | A valid body, or one with parse-level failures, reports nothing. Otherwise there is one warning per finding, in order, with the finding's message and re-based span; never an error |
| Validation.ReportWithinPrompt | engine/baml-lib/baml-core/src/validate/validation_pipeline/validations/functions.rs:57-65 | A finding whose range fits in the prompt's byte length becomes a warning inside the prompt's span, at the same offsets from the prompt's start |
| Validation.BindArgs | engine/baml-lib/baml-core/src/validate/validation_pipeline/validations/functions.rs:115-130 | Every named argument is bound in the innermost scope, and nothing else is. Each name is bound to the mapped type of its last argument. The errors are exactly the reference list: one "Argument name is missing." per unnamed argument, at its type's span, in argument order |
| Validation.BindArgsExample | engine/baml-lib/baml-core/src/validate/validation_pipeline/validations/functions.rs:115-130 | For two unnamed arguments followed by one named `x`, there are exactly two "Argument name is missing." errors, in argument order, and `x` is bound to its mapped type |
| Validation.UnnamedArgErrorsMembers | engine/baml-lib/baml-core/src/validate/validation_pipeline/validations/functions.rs:118-122 | The argument-name errors are all errors with that message. Every unnamed argument has one. The list is empty exactly when every argument is named |
| Validation.BodyCheck | engine/baml-lib/baml-core/src/validate/validation_pipeline/validations/functions.rs:113-156 | The checker is called on this declaration's name and body. It sees the outer environment plus one innermost scope. That scope binds exactly the named arguments, each to the mapped type of its last occurrence. The diagnostics are exactly the argument-name errors in order, followed by every finding the checker returned on that environment, each turned into a warning with its span moved into the prompt. Parse failures report nothing |
| Validation.BodyDiagsKinds | engine/baml-lib/baml-core/src/validate/validation_pipeline/validations/functions.rs:113-156 | A body yields only warnings and argument-name errors, and no error exactly when every argument is named |
| Validation.CheckBody | engine/baml-lib/baml-core/src/validate/validation_pipeline/validations/functions.rs:113-158 | After a body check the scopes and registry are as before and the error buffer is empty |
| Validation.TemplateDiags | engine/baml-lib/baml-core/src/validate/validation_pipeline/validations/functions.rs:25-68 | A template string without a raw body gets exactly one error, at its name. One with a body gets only warnings: exactly the checker's findings on the body, in order, with spans moved into the body |
| Validation.CheckTemplate | engine/baml-lib/baml-core/src/validate/validation_pipeline/validations/functions.rs:25-71 | A template string appends its own diagnostics. Without a body no checker call is made. With one, exactly one call is made, on its body, in one fresh scope; the diagnostics appended are that call's findings as warnings inside the body, and scopes are then restored |
| Validation.TemplateDiagsSucceed | engine/baml-lib/baml-core/src/validate/validation_pipeline/validations/functions.rs:26-35 | A template string causes an error exactly when it is not a raw string literal |
| Validation.FunctionDiags | engine/baml-lib/baml-core/src/validate/validation_pipeline/validations/functions.rs:73-156 | One function's diagnostics. They are described by FunctionDiagsPrefix, FunctionDiagsClient, FunctionDiagsPrompt and FunctionDiagsSucceed |
| Validation.FunctionDiagsPrefix | engine/baml-lib/baml-core/src/validate/validation_pipeline/validations/functions.rs:73-92 | Argument-type diagnostics come first. A function with no resolvable client and no client written on it then gets "Client metadata is missing." at its span, and nothing more |
| Validation.FunctionDiagsClient | engine/baml-lib/baml-core/src/validate/validation_pipeline/validations/functions.rs:81-101 | An unresolved named client gives one not-found error of kind `Client`, right after the argument-type diagnostics, listing every declared client; no other not-found error follows. A resolved client gives no not-found error after the argument-type diagnostics |
| Validation.FunctionDiagsPrompt | engine/baml-lib/baml-core/src/validate/validation_pipeline/validations/functions.rs:103-112 | A function that names a client but has no prompt ends with "Prompt metadata is missing." at its span |
| Validation.PromptDiags | engine/baml-lib/baml-core/src/validate/validation_pipeline/validations/functions.rs:103-156 | The prompt check never reports a not-found error |
| Validation.CheckFunction | engine/baml-lib/baml-core/src/validate/validation_pipeline/validations/functions.rs:73-159 | A function appends its own diagnostics. The checker is called exactly when the client is not missing and a prompt exists. It is then called once, on the prompt, in one fresh scope, and scopes are restored. The diagnostics appended are then the argument-type diagnostics, the client check, the argument-name errors, and that call's findings as warnings inside the prompt |
| Validation.FunctionDiagsSucceed | engine/baml-lib/baml-core/src/validate/validation_pipeline/validations/functions.rs:73-130 | A function causes no error exactly when its argument types pass, its client resolves, it has a prompt and every input is named |
| Validation.TemplatesPass | engine/baml-lib/baml-core/src/validate/validation_pipeline/validations/functions.rs:25-71 | The template loop. It is described by TemplatesPassCompose |
| Validation.TemplatesPassCompose | engine/baml-lib/baml-core/src/validate/validation_pipeline/validations/functions.rs:25-71 | Starting from an empty error buffer, the template loop leaves the environment unchanged. It reports each template's own diagnostics in order, and every checker call sees the environment plus one scope |
| Validation.FunctionsPass | engine/baml-lib/baml-core/src/validate/validation_pipeline/validations/functions.rs:73-159 | The function loop. It is described by FunctionsPassCompose |
| Validation.FunctionsPassCompose | engine/baml-lib/baml-core/src/validate/validation_pipeline/validations/functions.rs:73-159 | Starting from an empty error buffer, the function loop leaves the environment unchanged. It reports each function's own diagnostics in order, and every checker call sees the environment plus one scope |
| Validation.Validate | engine/baml-lib/baml-core/src/validate/validation_pipeline/validations/functions.rs:9-160 | The whole pass. It is described by ValidateCompose and ValidateSucceedsIff |
| Validation.ValidateCompose | engine/baml-lib/baml-core/src/validate/validation_pipeline/validations/functions.rs:9-160 | The pass reports all template diagnostics, then all function diagnostics, each as if its declaration were alone. Every checker call sees the full registry, exactly one scope and an empty error buffer |
| Validation.ValidateSucceedsIff | engine/baml-lib/baml-core/src/validate/validation_pipeline/validations/functions.rs:9-160 | The pass records no error exactly when every template string has a raw body and every function is clean. Template findings never make it fail |
| Validation.NoClientNoPromptExample | engine/baml-lib/baml-core/src/validate/validation_pipeline/validations/functions.rs:84-92 | A function with neither client nor prompt gets only "Client metadata is missing." and no checker call |
| Validation.UndeclaredClientExample | engine/baml-lib/baml-core/src/validate/validation_pipeline/validations/functions.rs:94-99 | An undeclared client gets a not-found error of kind `Client` whose candidates are all declared clients in order, and the pass fails |

## Left out

- The template checker, per-type validation and the mapping from a written type
  to a template type have no source in this model. They are the functions in
  `Validation.Hooks`. The properties hold for every choice of these functions,
  within the two limits below.
- The template checker receives the type environment mutably. The model's
  checker cannot change it: it only returns errors for the environment's error
  buffer. "Scopes are restored" and "every checker call sees exactly one scope"
  rest on this. A checker that pushed or popped scopes, or changed the registry,
  is not modelled.
- The default predefined types that the registry starts from are not in this
  model's source. `InitialEnv` takes them to be an empty registry with no scopes,
  so the registry holds only the declared classes and template strings.
- The database's client resolution has no source either. It is the flag
  `clientSpecResolves` on each function.
- This model keeps all diagnostics in one ordered sequence, errors and
  warnings together, in the order they were pushed.
- The commented-out reporting of parse-level template failures is not modelled.
  Such failures report nothing, as in the code.
- The tracer's submission, flushing, threading and statistics are not modelled.
  They are I/O and concurrency.
- Time stamps and latency are not modelled. They read the clock.
- Host name, stage, process id, project id, the input/output payloads and the
  LLM metadata of a log record are not modelled. They are copied from
  structures with no source here.
- JSON serialisation is not modelled. A non-string tag carries its JSON text as
  an input, with `None` standing for a failed serialisation.
- The terminal colouring of the trim marker is not modelled; the marker is the
  plain text `...[log trimmed]...`.
- Byte offsets and sizes are unbounded naturals. Rust's `usize` cannot overflow
  at realistic lengths, so no wrap-around is modelled.
- Rust panics on a slice at a non-character boundary. The slicing helpers
  instead require a boundary, and every use is proved to meet it.
- The path handling, version check and generator commands of the code generator
  library are not modelled. They are thin wrappers or shell commands.
- The Python and TypeScript host bindings and the web panel are not modelled.
  They are foreign-function glue and UI.

## Findings

| source | as written | input that shows it | evidently intended | confidence | as-written member | corrected member |
|---|---|---|---|---|---|---|
| engine/baml-runtime/src/tracing/mod.rs:67-82 | Keeps the first `m - 1` and the last `m` characters, with `h` half the byte limit and `m` the smaller of `h` and the character count. Both counts are characters, while the limit is in bytes. | Three four-byte emoji with a limit of ten. The text is 12 bytes, so it is trimmed; `h` is 5. The kept head is two emoji and the kept tail is all three, so the result repeats text. | Head and tail never overlap, so the result is never longer than the text plus the marker. | medium, not executed | Truncation.TruncateStringRepeatsText | Truncation.TruncateStringDisjoint |
