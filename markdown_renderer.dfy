/**
 * Link handling of the note editor's markdown renderer
 * (src/note_editor/MarkdownRenderer.cpp): an href is classified by its
 * prefix, note references are resolved to a UUID, and a click is dispatched
 * to the handler the editor installed.  The handlers are modelled by which of
 * them are set; a click yields the one call it makes (an Effect).  Opening the
 * browser and the Win32 calls behind it are not part of this model.
 */
module MarkdownRenderer {
  import opened Wrappers

  datatype Action = OpenExternal | RollExpr | NoteOpen | Unknown

  /** Parsed: the action and its payload (an empty payload by default). */
  datatype Parsed = Parsed(kind: Action, payload: string)

  /** startsWith_: `pref` is a prefix of `s`. */
  function StartsWith(s: string, pref: string): (r: bool)
    ensures r <==> pref <= s
  {
    |s| >= |pref| && s[..|pref|] == pref
  }

  /**
   * parseHref_: http:// and https:// links open externally with the whole
   * href; "roll://" is tried before "roll:", and "note://open/" before
   * "note:/" before "note:"; the payload is the text after the matched
   * prefix; anything else is Unknown with an empty payload.
   */
  function ParseHref(href: string): (r: Parsed)
    ensures r.kind == OpenExternal <==> "http://" <= href || "https://" <= href
    ensures r.kind == OpenExternal ==> r.payload == href
    ensures r.kind == RollExpr <==>
              !("http://" <= href || "https://" <= href) && ("roll://" <= href || "roll:" <= href)
    ensures r.kind == RollExpr ==>
              if "roll://" <= href then href == "roll://" + r.payload else href == "roll:" + r.payload
    ensures r.kind == NoteOpen <==>
              !("http://" <= href || "https://" <= href || "roll:" <= href)
              && ("note://open/" <= href || "note:/" <= href || "note:" <= href)
    ensures r.kind == NoteOpen ==>
              if "note://open/" <= href then href == "note://open/" + r.payload
              else if "note:/" <= href then href == "note:/" + r.payload
              else href == "note:" + r.payload
    ensures r.kind == Unknown ==> r.payload == []
  {
    if StartsWith(href, "http://") || StartsWith(href, "https://") then Parsed(OpenExternal, href)
    else if StartsWith(href, "roll://") then Parsed(RollExpr, href[7..])
    else if StartsWith(href, "roll:") then Parsed(RollExpr, href[5..])
    else if StartsWith(href, "note://open/") then Parsed(NoteOpen, href[|"note://open/"|..])
    else if StartsWith(href, "note:/") then Parsed(NoteOpen, href[6..])
    else if StartsWith(href, "note:") then Parsed(NoteOpen, href[5..])
    else Parsed(Unknown, [])
  }

  /** Building a roll link and parsing it gives the expression back. */
  lemma {:induction false} RollLinkRoundTrip(expr: string)
    ensures ParseHref("roll:" + expr) == Parsed(RollExpr, if "//" <= expr then expr[2..] else expr)
  {
    var href := "roll:" + expr;
    assert href[..5] == "roll:";
    assert !("http://" <= href || "https://" <= href) by {
      assert href[0] == 'r';
    }
    if "//" <= expr {
      assert href[..7] == "roll://";
      assert href[7..] == expr[2..];
    } else {
      assert href[5..] == expr;
      assert ParseHref(href).payload == href[5..];
    }
  }

  /** std::isxdigit in the "C" locale. */
  predicate IsHex(c: char)
  {
    '0' <= c <= '9' || 'a' <= c <= 'f' || 'A' <= c <= 'F'
  }

  predicate IsDashPosition(i: int)
  {
    i == 8 || i == 13 || i == 18 || i == 23
  }

  /** Character `i` of a UUID: a dash at 8, 13, 18 and 23, a hex digit elsewhere. */
  predicate UuidCharOk(s: string, i: nat)
    requires i < |s|
  {
    if IsDashPosition(i) then s[i] == '-' else IsHex(s[i])
  }

  /** The 8-4-4-4-12 shape looksLikeUuid_ accepts. */
  predicate UuidShape(s: string)
  {
    |s| == 36 && forall i :: 0 <= i < 36 ==> UuidCharOk(s, i)
  }

  /** The shape looksLikeShortId_ accepts: at least 8 characters, all hex digits. */
  predicate ShortIdShape(s: string)
  {
    |s| >= 8 && forall i :: 0 <= i < |s| ==> s[i] != '-' && IsHex(s[i])
  }

  /** A UUID is never a short id: it has dashes. */
  lemma {:induction false} UuidIsNotShortId(s: string)
    requires UuidShape(s)
    ensures !ShortIdShape(s)
  {
    assert UuidCharOk(s, 8);
  }

  /** looksLikeUuid_: the length check, then one scan with an early return on the first bad character. */
  method LooksLikeUuid(s: string) returns (ok: bool)
    ensures ok <==> UuidShape(s)
  {
    if |s| != 36 {
      return false;
    }
    var i := 0;
    while i < 36
      invariant 0 <= i <= 36
      invariant forall k :: 0 <= k < i ==> UuidCharOk(s, k)
    {
      if i == 8 || i == 13 || i == 18 || i == 23 {
        if s[i] != '-' {
          assert !UuidCharOk(s, i);
          return false;
        }
      } else if !IsHex(s[i]) {
        assert !UuidCharOk(s, i);
        return false;
      }
      i := i + 1;
    }
    return true;
  }

  /** looksLikeShortId_: the length check, then one scan rejecting a dash or a non-hex character. */
  method LooksLikeShortId(s: string) returns (ok: bool)
    ensures ok <==> ShortIdShape(s)
  {
    if |s| < 8 {
      return false;
    }
    for i := 0 to |s|
      invariant forall k :: 0 <= k < i ==> s[k] != '-' && IsHex(s[k])
    {
      if s[i] == '-' {
        return false;
      }
      if !IsHex(s[i]) {
        return false;
      }
    }
    return true;
  }

  /**
   * resolveNote_: a UUID-shaped reference is used as it is; anything else
   * goes to the resolver when one is set, and resolves to nothing otherwise.
   */
  function ResolveNote(ref: string, resolver: Option<string -> string>): (r: string)
    ensures UuidShape(ref) ==> r == ref
    ensures !UuidShape(ref) && resolver.Some? ==> r == resolver.value(ref)
    ensures !UuidShape(ref) && resolver.None? ==> r == []
  {
    if UuidShape(ref) then ref
    else if resolver.Some? then resolver.value(ref)
    else []
  }

  /** The callbacks a renderer has: which of them are set, and the note resolver. */
  datatype Handlers = Handlers(
    hasOpenExternal: bool,
    hasRoll: bool,
    hasNoteOpen: bool,
    resolver: Option<string -> string>)

  /** What one click does. */
  datatype Effect =
    | CallOpenExternal(url: string)
    | CallRoll(expr: string)
    | CallNoteOpen(uuid: string)
    | OpenBrowser(url: string)
    | NoEffect

  /** openDefaultBrowser_ ignores an empty URL. */
  function DefaultBrowser(url: string): (r: Effect)
    ensures url == [] ==> r == NoEffect
    ensures url != [] ==> r == OpenBrowser(url)
  {
    if url == [] then NoEffect else OpenBrowser(url)
  }

  /**
   * open_url: external links go to onOpenExternal when it is set (and
   * nowhere otherwise), rolls to onRoll, note links to onNoteOpen with the
   * resolved UUID when it is not empty, and an Unknown href to onOpenExternal
   * or else the default browser.
   */
  function OpenUrl(href: string, h: Handlers): (r: Effect)
    ensures ParseHref(href).kind == OpenExternal ==>
              r == if h.hasOpenExternal then CallOpenExternal(href) else NoEffect
    ensures ParseHref(href).kind == Unknown ==>
              r == if h.hasOpenExternal then CallOpenExternal(href) else DefaultBrowser(href)
    ensures r.CallRoll? <==> ParseHref(href).kind == RollExpr && h.hasRoll
    ensures r.CallRoll? ==> r.expr == ParseHref(href).payload
    ensures r.CallNoteOpen? <==>
              ParseHref(href).kind == NoteOpen && h.hasNoteOpen && ResolveNote(ParseHref(href).payload, h.resolver) != []
    ensures r.CallNoteOpen? ==> r.uuid == ResolveNote(ParseHref(href).payload, h.resolver)
  {
    var a := ParseHref(href);
    match a.kind
    case OpenExternal => if h.hasOpenExternal then CallOpenExternal(a.payload) else NoEffect
    case RollExpr => if h.hasRoll then CallRoll(a.payload) else NoEffect
    case NoteOpen =>
      var uuid := ResolveNote(a.payload, h.resolver);
      if uuid != [] && h.hasNoteOpen then CallNoteOpen(uuid) else NoEffect
    case Unknown => if h.hasOpenExternal then CallOpenExternal(href) else DefaultBrowser(href)
  }

  /** A note://open/ link to a UUID opens that note when a note handler is set, whatever the resolver. */
  lemma {:induction false} NoteLinkOpensUuid(uuid: string, h: Handlers)
    requires UuidShape(uuid) && h.hasNoteOpen
    ensures OpenUrl("note://open/" + uuid, h) == CallNoteOpen(uuid)
  {
    var href := "note://open/" + uuid;
    assert href[..12] == "note://open/";
    assert href[12..] == uuid;
    assert href[0] == 'n';
  }
}
