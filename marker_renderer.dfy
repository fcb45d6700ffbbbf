/**
 * The link handling of the marker renderer (include/note_editor/MarkerRenderer.h).
 * Its href parser, UUID and short-id checks and prefix test are the same
 * code as the markdown renderer's and are shared with MarkdownRenderer;
 * what differs is the note resolution, which checks for a short id first,
 * and the click dispatch, which sends every external or unknown link to the
 * default browser and never to onOpenExternal.
 */
module MarkerRenderer {
  import opened Wrappers
  import opened MarkdownRenderer

  /**
   * resolveNote_ with its short-id branch: a UUID is used as it is; a short
   * id and any other reference both go to the resolver when one is set, so
   * the result agrees with the markdown renderer's resolution.
   */
  function ResolveNote(ref: string, resolver: Option<string -> string>): (r: string)
    ensures UuidShape(ref) ==> r == ref
    ensures !UuidShape(ref) && ShortIdShape(ref) ==> r == if resolver.Some? then resolver.value(ref) else []
    ensures r == MarkdownRenderer.ResolveNote(ref, resolver)
  {
    if UuidShape(ref) then ref
    else if ShortIdShape(ref) then (if resolver.Some? then resolver.value(ref) else [])
    else if resolver.Some? then resolver.value(ref)
    else []
  }

  /**
   * open_url: external links and unknown hrefs go to the default browser
   * (an empty URL does nothing), rolls and notes as in the markdown renderer;
   * onOpenExternal is never called.
   */
  function OpenUrl(href: string, h: Handlers): (r: Effect)
    ensures !r.CallOpenExternal?
    ensures ParseHref(href).kind in {OpenExternal, Unknown} ==> r == DefaultBrowser(href)
    ensures ParseHref(href).kind in {RollExpr, NoteOpen} ==> r == MarkdownRenderer.OpenUrl(href, h)
    ensures !h.hasOpenExternal ==>
              r == if ParseHref(href).kind == OpenExternal then DefaultBrowser(href) else MarkdownRenderer.OpenUrl(href, h)
  {
    var a := ParseHref(href);
    match a.kind
    case OpenExternal => DefaultBrowser(a.payload)
    case RollExpr => if h.hasRoll then CallRoll(a.payload) else NoEffect
    case NoteOpen =>
      var uuid := ResolveNote(a.payload, h.resolver);
      if uuid != [] && h.hasNoteOpen then CallNoteOpen(uuid) else NoEffect
    case Unknown => DefaultBrowser(href)
  }
}
