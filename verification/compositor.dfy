/** The two-stage template composition shared by the internal renderer and
    the public error-page plugin, over an abstract document: stage 1 inlines
    named content blocks into the layout, stage 2 binds the result against
    an object, then assets are appended to `<head>` and the title is set.
    QueryPath itself (parsing, binding, serialisation) is the `Engine`. */
module Compositor {
  import opened Wrappers

  /** An element appended to the document's `<head>`. */
  datatype HeadElement =
    | FaviconLink(mimeType: string, href: string)
    | StylesheetLink(href: string)
    | ScriptElement(src: string)

  /** The markup each head element is appended as. */
  function Xhtml(e: HeadElement): string {
    match e
    case FaviconLink(t, h) => "<link rel=\"icon\" type=\"" + t + "\" href=\"" + h + "\"/>"
    case StylesheetLink(h) => "<link rel=\"stylesheet\" href=\"" + h + "\"/>"
    case ScriptElement(s) => "<script src=\"" + s + "\"></script>"
  }

  /** A bound document: the `<head>` children appended so far, the text of
      its `<title>` element (`None` when it has none), and the rest of the
      tree, which the model does not look into. */
  datatype Document = Document(head: seq<HeadElement>, title: Option<string>, tree: string)

  /** A named content block for stage 1 and its fragments, in order. */
  datatype ScriptBlock = ScriptBlock(name: string, fragments: seq<string>)

  /** QueryPath's template engine: stage 1 and stage 2 may fail (a parse or
      bind exception, `None`); `save` serialises a document. `B` is the kind
      of object stage 2 binds against. */
  datatype Engine<!B> = Engine(
    compose: (string, seq<ScriptBlock>) -> Option<string>,
    bind: (string, B) -> Option<Document>,
    save: Document -> string
  )

  /** PHP's `PHP_EOL`, here its value on Unix-like systems. */
  const EndOfLine := "\n"

  /** Both stages, in order; `None` when either throws (the caller logs it). */
  function ComposeAndBind<B>(engine: Engine<B>, layout: string, blocks: seq<ScriptBlock>, binding: B): (r: Option<Document>)
    ensures r.Some? <==> engine.compose(layout, blocks).Some? && engine.bind(engine.compose(layout, blocks).value, binding).Some?
    ensures r.Some? ==> r == engine.bind(engine.compose(layout, blocks).value, binding)
  {
    match engine.compose(layout, blocks)
    case None => None
    case Some(intermediate) => engine.bind(intermediate, binding)
  }

  /** `$head->append(...)` for each element, in order. */
  function AppendHead(doc: Document, elements: seq<HeadElement>): (r: Document)
    ensures |r.head| == |doc.head| + |elements|
    ensures r.head[..|doc.head|] == doc.head && r.head[|doc.head|..] == elements
    ensures r.title == doc.title && r.tree == doc.tree
  {
    var r := doc.(head := doc.head + elements);
    assert r.head[..|doc.head|] == doc.head && r.head[|doc.head|..] == elements;
    r
  }

  /** `$head->find('title')->text($t)`: sets the text of the title element
      when there is one; without a title element nothing changes. */
  function SetTitle(doc: Document, t: string): (r: Document)
    ensures r.head == doc.head && r.tree == doc.tree
    ensures doc.title.Some? ==> r.title == Some(t)
    ensures doc.title.None? ==> r == doc
  {
    if doc.title.Some? then doc.(title := Some(t)) else doc
  }

  /** The response text: the doctype, a newline and the serialised document. */
  function Output<B>(engine: Engine<B>, doctype: string, doc: Document): string {
    doctype + EndOfLine + engine.save(doc)
  }
}
