/** The orchestration in `render(source, config)` and the configuration that
    `getDefaultConfig` builds. The RAML parser, the JSON-schema expander, the
    template environment and the minifier are parameters; promises become
    `Result` values, resolved or rejected. */
module Pipeline {
  import opened Wrappers
  import opened JsValues
  import Quotes

  /** What `render` accepts as its source: a file name, a URL, the RAML text,
      or an already-parsed document. */
  datatype Source =
    | FilePath(path: string)
    | Url(url: string)
    | RamlText(text: string)
    | Parsed(document: JsValue)

  /** The reason a promise was rejected. */
  datatype Error = Error(message: string)

  /** `raml2obj.parse`: the parsed document, or the loader's error. */
  type Parser = Source -> Result<JsValue, Error>

  /** `ramlJsonSchemaExpander.expandJsonSchemas`: the expanded document, or
      the exception it throws. */
  type Expander = JsValue -> Result<JsValue, Error>

  /** `config.processRamlObj`: renders the document to HTML. */
  type RenderHook = (JsValue, Source) -> Result<string, Error>

  /** `config.postProcessHtml`: transforms the rendered HTML. */
  type PostHook = string -> Result<string, Error>

  /** The configuration object; `render` writes the version stamp into it. */
  class Config {
    var raml2HtmlVersion: Option<string>
    var processRamlObj: Option<RenderHook>
    var postProcessHtml: Option<PostHook>

    constructor (process: Option<RenderHook>, post: Option<PostHook>)
      ensures raml2HtmlVersion == None
      ensures processRamlObj == process && postProcessHtml == post
    {
      raml2HtmlVersion := None;
      processRamlObj := process;
      postProcessHtml := post;
    }
  }

  /** The parsed document; `render` attaches the configuration to it and the
      schema expander rewrites its contents. */
  class RamlObj {
    var content: JsValue
    var config: Config?

    constructor (content: JsValue)
      ensures this.content == content && config == null
    {
      this.content := content;
      config := null;
    }
  }

  /** How the promise returned by `render` settles. */
  datatype Outcome =
    | Rejected(error: Error)
    | ResolvedDocument(document: RamlObj)
    | ResolvedHtml(html: string)

  /** A promise of HTML, settled. */
  function Settle(r: Result<string, Error>): Outcome
  {
    match r
    case Failure(e) => Rejected(e)
    case Success(html) => ResolvedHtml(html)
  }

  /** `render(source, config)`. A missing configuration is replaced by an
      empty one; the version is stamped on it before parsing. A parse
      failure rejects. Otherwise the configuration is attached to the
      document; with no `processRamlObj` the document itself is the result,
      and with one the document is expanded (an expander exception rejects),
      rendered and, exactly when `postProcessHtml` is present, the HTML is
      post-processed. */
  method Render(source: Source, config: Config?, version: string, parse: Parser, expand: Expander)
    returns (used: Config, doc: RamlObj?, outcome: Outcome)
    modifies config
    ensures config != null ==> used == config
    ensures config != null ==>
      used.processRamlObj == old(config.processRamlObj) && used.postProcessHtml == old(config.postProcessHtml)
    ensures config == null ==> fresh(used) && used.processRamlObj == None && used.postProcessHtml == None
    ensures used.raml2HtmlVersion == Some(version)
    ensures parse(source).Failure? ==> doc == null && outcome == Rejected(parse(source).error)
    ensures parse(source).Success? ==> doc != null && doc.config == used
    ensures parse(source).Success? && used.processRamlObj.None? ==>
      doc.content == parse(source).value && outcome == ResolvedDocument(doc)
    ensures parse(source).Success? && used.processRamlObj.Some? && expand(parse(source).value).Failure? ==>
      doc.content == parse(source).value && outcome == Rejected(expand(parse(source).value).error)
    ensures parse(source).Success? && used.processRamlObj.Some? && expand(parse(source).value).Success? ==>
      doc.content == expand(parse(source).value).value &&
      var rendered := used.processRamlObj.value(doc.content, source);
      outcome ==
        if rendered.Failure? then Rejected(rendered.error)
        else if used.postProcessHtml.Some? then Settle(used.postProcessHtml.value(rendered.value))
        else ResolvedHtml(rendered.value)
  {
    if config == null {
      used := new Config(None, None);
    } else {
      used := config;
    }
    used.raml2HtmlVersion := Some(version);

    match parse(source)
    case Failure(e) =>
      doc := null;
      outcome := Rejected(e);
    case Success(parsed) =>
      doc := new RamlObj(parsed);
      doc.config := used;
      if used.processRamlObj.Some? {
        match expand(doc.content)
        case Failure(e) =>
          outcome := Rejected(e);
        case Success(expanded) =>
          doc.content := expanded;
          match used.processRamlObj.value(doc.content, source)
          case Failure(e) =>
            outcome := Rejected(e);
          case Success(html) =>
            if used.postProcessHtml.Some? {
              outcome := Settle(used.postProcessHtml.value(html));
            } else {
              outcome := ResolvedHtml(html);
            }
      } else {
        outcome := ResolvedDocument(doc);
      }
  }

  /** The bundled template, used when no main template is given. */
  const DefaultTemplate: string := "./lib/template.nunjucks"

  /** `getDefaultConfig`'s choice of template and search path: without a
      (non-empty) main template, the bundled one is used and looked up in
      the library's own directory, never in the working directory. So a
      template is always named, the search path is left unset (and the
      template engine falls back to the working directory) only when the
      caller named a template and gave no path, and the caller's path is
      ignored whenever the bundled template is used. */
  function SelectTemplate(mainTemplate: Option<string>, templatesPath: Option<string>, libraryDir: string)
    : (r: (string, Option<string>))
    ensures r.0 != []
    ensures r.1.None? ==> templatesPath.None? && mainTemplate.Some? && r.0 == mainTemplate.value
    ensures r.0 != mainTemplate.GetOr([]) ==> r == (DefaultTemplate, Some(libraryDir))
    ensures mainTemplate.GetOr([]) != [] ==> r.0 == mainTemplate.value && r.1 == templatesPath
  {
    if mainTemplate.None? || mainTemplate.value == [] then (DefaultTemplate, Some(libraryDir))
    else (mainTemplate.value, templatesPath)
  }

  /** The template environment's `render(template, document)`, configured
      with a search path; it may throw, which rejects. The environment is
      built afresh for each call of the render hook, with its `includeCode`
      filter bound to the directory of that call's source, so the source is
      an argument too. */
  type TemplateRenderer = (string, Option<string>, JsValue, Source) -> Result<string, Error>

  /** The minifier: the minified HTML, or its error message. */
  type Minifier = string -> Result<string, string>

  /** The default `processRamlObj`: render the main template against the
      document, then turn every `&quot;` back into `"`. */
  function DefaultRenderHook(template: string, searchPath: Option<string>, renderTemplate: TemplateRenderer)
    : RenderHook
  {
    (content: JsValue, source: Source) =>
      match renderTemplate(template, searchPath, content, source)
      case Failure(e) => Failure(e)
      case Success(html) => Success(Quotes.FixQuotes(html))
  }

  /** The default `postProcessHtml`: minify; a minifier error rejects with
      an `Error` wrapping it. */
  function DefaultPostHook(minify: Minifier): PostHook
  {
    (html: string) =>
      match minify(html)
      case Failure(message) => Failure(Error(message))
      case Success(small) => Success(small)
  }

  /** `getDefaultConfig(mainTemplate, templatesPath)`: a fresh configuration
      carrying both default hooks. */
  method GetDefaultConfig(mainTemplate: Option<string>, templatesPath: Option<string>, libraryDir: string,
                          renderTemplate: TemplateRenderer, minify: Minifier)
    returns (config: Config)
    ensures fresh(config) && config.raml2HtmlVersion == None
    ensures config.processRamlObj ==
      Some(DefaultRenderHook(SelectTemplate(mainTemplate, templatesPath, libraryDir).0,
                             SelectTemplate(mainTemplate, templatesPath, libraryDir).1, renderTemplate))
    ensures config.postProcessHtml == Some(DefaultPostHook(minify))
  {
    var (template, searchPath) := SelectTemplate(mainTemplate, templatesPath, libraryDir);
    config := new Config(Some(DefaultRenderHook(template, searchPath, renderTemplate)),
                         Some(DefaultPostHook(minify)));
  }

  /** The default render hook resolves exactly when the template renders,
      with the rendered page after the quote fix (so it never contains
      `&quot;`), and a template error is passed on. */
  lemma DefaultRenderHookFixesQuotes(template: string, searchPath: Option<string>,
                                     renderTemplate: TemplateRenderer, content: JsValue, source: Source)
    ensures DefaultRenderHook(template, searchPath, renderTemplate)(content, source).Success? <==>
      renderTemplate(template, searchPath, content, source).Success?
    ensures DefaultRenderHook(template, searchPath, renderTemplate)(content, source).Success? ==>
      !Quotes.ContainsEntity(DefaultRenderHook(template, searchPath, renderTemplate)(content, source).value)
    ensures renderTemplate(template, searchPath, content, source).Success? ==>
      DefaultRenderHook(template, searchPath, renderTemplate)(content, source)
        == Success(Quotes.FixQuotes(renderTemplate(template, searchPath, content, source).value))
    ensures renderTemplate(template, searchPath, content, source).Failure? ==>
      DefaultRenderHook(template, searchPath, renderTemplate)(content, source)
        == Failure(renderTemplate(template, searchPath, content, source).error)
  {
    match renderTemplate(template, searchPath, content, source)
    case Failure(_) =>
    case Success(html) => Quotes.FixQuotesRemovesEntity(html);
  }
}
