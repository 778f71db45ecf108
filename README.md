# raml2html core, modelled in Dafny

raml2html turns a RAML API description into HTML documentation. Its `index.js`
is an orchestration layer over a RAML parser, a JSON-schema expander, the
Nunjucks template engine, the `marked` Markdown engine and an HTML minifier.
This project models the logic `index.js` itself contains and proves what it
promises:

- `render(source, config)` (module `Pipeline`): stamps the version onto the
  configuration, parses the source, attaches the configuration to the parsed
  document, and either resolves with the document or renders it through
  `processRamlObj` and, only when present, `postProcessHtml`. The configuration
  and the document are classes whose fields `render` updates in place.
- `getDefaultConfig` (module `Pipeline`): the choice of template and search
  path, and the two default hooks.
- `securitySchemeWithName(name)` (module `SecuritySchemes`): the index loop
  that returns the first truthy definition stored under `name` in the ordered
  list of single-entry scheme objects, or `undefined`. Truthiness follows
  JavaScript (module `JsValues`).
- The quote fix `html.replace(/&quot;/g, '"')` (module `Quotes`).
- The `includeCode` filter (module `IncludeCode`): every match of
  `/#includeCode:(.+)/g` becomes the named file's contents in a Markdown code
  fence; a failed read returns the input unchanged.
- The Bootstrap table rule `renderer.table` (module `MarkdownTable`).

The parser, expander, template environment, minifier, `path.join` and the
package version are parameters of the model; the file system is a map from
path to contents in which a missing path is a read that throws. Promises are
`Result` values (resolved or rejected), settled in the order the source chains
them.

The file name of an `includeCode` directive is everything up to the end of
its line, trailing spaces included (index.js:79 uses the expression `.+`). For
any string source, it is resolved against `path.dirname(source)` (index.js:80,
86).

Files: `wrappers.dfy` (Option, Result), `text.dfy` (prefixes and character
counts), `js_values.dfy`, `security_schemes.dfy`, `quotes.dfy`,
`include_code.dfy`, `markdown_table.dfy`, `pipeline.dfy`.

## Model

| member | source | states |
|---|---|---|
| `SecuritySchemes.SecuritySchemeWithName` | index.js:89-95 | the loop returns exactly `FirstTruthy(schemes, name)`: the first truthy definition under `name`, or `undefined` |
| `SecuritySchemes.FirstTruthy` | index.js:90-95 | the result is truthy or `undefined`; it is `undefined` exactly when no entry holds a truthy value under `name` (so also for an empty list); otherwise it is the value of some entry all of whose predecessors hold a falsy value |
| `SecuritySchemes.FirstTruthyIgnoresLater` | index.js:90-93 | once an entry of `a` matches, appending entries after `a` never changes the result: later entries are not consulted |
| `SecuritySchemes.FirstTruthySkipsUndeclared` | index.js:90-94 | entries that declare nothing truthy under `name` are skipped: the result on `a + b` is the result on `b` |
| `SecuritySchemes.LookupTwoSchemes` | index.js:89-95 | with `[{basic: d1}, {oauth2: d2}]` each name finds its own definition and any other name finds `undefined` |
| `Quotes.FixQuotes` | index.js:99 | definition of the global replace; the result is never longer than the input; characterised by `FixQuotesSplit` and `FixQuotesIdentity` |
| `Quotes.FixQuotesValue` | index.js:99 | `&quot;value&quot;` becomes `"value"` |
| `Quotes.FixQuotesRemovesEntity` | index.js:99 | the output of the quote fix contains no `&quot;` |
| `Quotes.FixQuotesIdentity` | index.js:99 | text without `&quot;` is returned unchanged |
| `Quotes.FixQuotesIdempotent` | index.js:99 | applying the quote fix to its own output changes nothing |
| `Quotes.FixQuotesSplit` | index.js:99 | an occurrence of `&quot;` becomes exactly one `"` in place, and the text on either side is fixed independently (matches never straddle an occurrence) |
| `Quotes.FixQuotesCounts` | index.js:99 | each occurrence shortens the text by five characters and adds exactly one `"`; no other `"` is added or lost |
| `Quotes.FixQuotesUndoesEscape` | index.js:97-99 | for text without `&`, fixing what a template wrote when it encoded each `"` as `&quot;` gives the original text back |
| `Quotes.FixQuotesPrefix` | index.js:99 | a prefix of the output without `"` was already a prefix of the input |
| `IncludeCode.IncludeCodeFilter` | index.js:76-86 | `undefined` gives `''`; if any directive's file is unreadable the original value is returned; text without a directive is returned unchanged; otherwise the result is the full replacement |
| `IncludeCode.Expand` | index.js:79-81 | definition of the global replace; a failure needs at least one directive; characterised by `ExpandFirstDirective`, `ExpandPlain` and `ExpandFailsIffUnreadable` |
| `IncludeCode.ExpandFailsIffUnreadable` | index.js:77-85 | the replacement fails (throws) exactly when some directive, in the order the regular expression finds them, names an unreadable file: all or nothing |
| `IncludeCode.ExpandPlain` | index.js:79 | text in which the regular expression matches nowhere is copied unchanged and names no file |
| `IncludeCode.ExpandFirstDirective` | index.js:79-81 | text before the first directive is kept, `#includeCode:FILE` (FILE the rest of its line) becomes "```\n" + contents of `join(dir, FILE)` + "\n```", and the scan resumes at the end of that line; an unreadable FILE makes the whole replacement fail |
| `IncludeCode.ExpandAtDirective` | index.js:79-80 | a directive at the start of the text takes exactly the rest of its line as file name |
| `IncludeCode.ExpandPlainPrefix` | index.js:79 | text in front of the first match is copied verbatim, and names no file |
| `IncludeCode.RestOfLine` | index.js:79 | the greedy `.+` takes a prefix with no line terminator that ends at a line terminator or at the end of the text |
| `IncludeCode.IncludeCodeFooTxt` | index.js:76-81 | `#includeCode:foo.txt` with `foo.txt` holding `hello` becomes a fence around exactly `hello` |
| `IncludeCode.IncludeCodeMissingFile` | index.js:77-85 | the same directive with `foo.txt` missing returns the text unchanged |
| `MarkdownTable.Table` | index.js:63-66 | the table markup starts with `<table class="table"><thead>`, holds the header right after it, then `</thead><tbody>`, then the body, and ends with `</tbody></table>`; its length shows nothing else is added, so both sections can be read back |
| `Pipeline.Render` | index.js:19-39 | a missing configuration becomes an empty one; the version is always stamped, even when parsing fails; a parse error rejects; otherwise the document carries the configuration and is the result when there is no `processRamlObj`; else it is expanded (an expander exception rejects), rendered, and post-processed exactly when `postProcessHtml` is present; each rejection is passed on unchanged |
| `Pipeline.SelectTemplate` | index.js:46-53 | a template is always named; a non-empty template named by the caller is used as given, together with the caller's search path (set or not); the search path is left unset (so the template engine would look in the working directory) only when the caller named a template and gave no path; whenever the caller's template is not used (absent or empty), the bundled template is searched for in the library's own directory |
| `Pipeline.GetDefaultConfig` | index.js:46-125 | a fresh configuration, not yet stamped, whose hooks are the default render hook for the selected template and the default minifying post hook |
| `Pipeline.DefaultRenderHookFixesQuotes` | index.js:97-104 | the default render hook resolves exactly when the template renders, and then with exactly the quote fix of the rendered page (so a page holding `&quot;value&quot;` comes back holding `"value"`, see `Quotes.FixQuotesValue`), which never contains `&quot;`; a template error is passed on |
| `Pipeline.DefaultRenderHook` | index.js:56-105 | definition; the template is rendered by an environment built for this call's source, then quote-fixed; characterised by `Pipeline.DefaultRenderHookFixesQuotes` |
| `Pipeline.DefaultPostHook` | index.js:107-123 | definition: resolves with the minifier's output; a minifier error rejects with `Error(message)` (index.js:114-119) |

## Left out

- RAML parsing, JSON-schema expansion, the Nunjucks environment and template language, and the `marked` Markdown engine: foreign libraries, modelled only as function parameters (`Parser`, `Expander`, `TemplateRenderer`).
- Registration of the Markdown and `includeCode` filters on the template environment (index.js:69-87): what a template does with them is template-language semantics; the filters' logic itself is modelled.
- Pipeline.DefaultRenderHook: the hook also assigns `securitySchemeWithName` as a method of the document object it is given (index.js:89), so the caller's document is changed by rendering; the hook is modelled as a function of the document's contents, so this mutation is not captured (the lookup itself is modelled in `SecuritySchemes`).
- The minification algorithm and its `{quotes: true}` option (index.js:109-110): foreign library, modelled as the `Minifier` parameter.
- Promise and callback mechanics (`Q.fcall`, `Q.defer`, `.then`): the asynchronous steps are run in their fixed order as plain function calls.
- `fs.readFileSync`, `path.join` and `path.dirname`: the file system is a map, `join` a parameter and the directory an argument; Buffer-to-string decoding is not modelled (contents are strings).
- `console.error` on a failed inclusion (index.js:83) and the direct-invocation usage message with exit status 1 (index.js:132-135): process I/O.
- `path.dirname(source)` in the default render hook (index.js:86), which throws for a source that is not a string in current Node.js versions: the template environment is a parameter that receives each call's source, and the directory it binds the `includeCode` filter to is left to it; that the directory is `path.dirname(source)` is stated for `IncludeCode.IncludeCodeFilter` by taking it as an argument, not derived from the source.
- The version in `package.json` is not part of this model; `Render` takes it as a parameter.
- Pipeline.Render: the parser yields the document's contents and the model allocates the document object itself, so when the source is an already-parsed object (index.js:13-14) the aliasing between the caller's object and the one `render` attaches the configuration to (index.js:24) is not captured; the contract therefore promises nothing about whether the document is new. An expander that throws after partly rewriting the document in place is modelled as leaving the parsed contents.
- Pipeline.Render: the hooks are modelled as functions of the document's contents and the source; the configuration attached to the document is stated on the returned `RamlObj`, but a hook cannot read it. The expander is taken to rewrite the document in place, as the library does, so the attached configuration survives it.
- SecuritySchemes.SecuritySchemeWithName: a document without a `securitySchemes` list (where the source throws a TypeError) and property names inherited from `Object.prototype` are not modelled; each entry is an object's own properties.
- IncludeCode.IncludeCodeFilter: a non-string truthy `value` (where `replace` is not a function and the catch returns the value) is not modelled; `value` is a string or absent.
- JsValues: JavaScript numbers are reals plus `NaN`; infinities and floating-point rounding are not modelled (they do not affect truthiness).
