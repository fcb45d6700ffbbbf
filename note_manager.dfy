/**
 * The note store of the note editor (src/note_editor/NoteManager.cpp):
 * markdown files with a "---" front-matter block are parsed into notes,
 * fresh notes get a random version-4 style UUID, and the ECS world holds one
 * note entity per UUID.  The world is the `notes` map of a NoteManager object
 * (entity name to component); a file is given as its lines, the directory as
 * its entries, the random generator as the sequence of its draws and the
 * clock as the text ctime produced.
 */
module NoteManager {
  import opened Wrappers
  import MarkdownRenderer

  datatype NoteComponent = NoteComponent(
    uuid: string,
    title: string,
    markdownText: string,
    author: string,
    creationDate: string,
    lastUpdate: string,
    openEditor: bool,
    selected: bool,
    shared: bool,
    savedLocally: bool,
    hasConflict: bool,
    sharedFrom: string)

  /** A default-constructed NoteComponent. */
  const EmptyNote: NoteComponent := NoteComponent("", "", "", "", "", "", false, false, false, false, false, "")

  // ---------------------------------------------------------------------
  // Front matter
  // ---------------------------------------------------------------------

  /** string::find: the first index of `c`, if any. */
  function FindChar(s: string, c: char): (r: Option<nat>)
    ensures r.None? <==> c !in s
    ensures r.Some? ==> r.value < |s| && s[r.value] == c && c !in s[..r.value]
  {
    if s == [] then None
    else if s[0] == c then Some(0)
    else match FindChar(s[1..], c)
      case None => None
      case Some(i) =>
        assert s[..i + 1] == [s[0]] + s[1..][..i];
        Some(i + 1)
  }

  /** `value.erase(0, value.find_first_not_of(" \t"))`: drop leading spaces and tabs (all of them when nothing else is left). */
  function LeftTrim(s: string): (r: string)
    ensures |r| <= |s| && r == s[|s| - |r|..]
    ensures forall k :: 0 <= k < |s| - |r| ==> s[k] == ' ' || s[k] == '\t'
    ensures r != [] ==> r[0] != ' ' && r[0] != '\t'
  {
    if s != [] && (s[0] == ' ' || s[0] == '\t') then LeftTrim(s[1..]) else s
  }

  /**
   * One metadata line: split at the first ':', keep the untrimmed key and the
   * left-trimmed value, and store it when the key is one of the five known
   * ones; other keys and lines without ':' change nothing.
   */
  function ApplyMeta(note: NoteComponent, line: string): (r: NoteComponent)
    ensures ':' !in line ==> r == note
    ensures ':' in line ==>
              var c := FindChar(line, ':').value;
              var key := line[..c];
              var value := LeftTrim(line[c + 1..]);
              r == if key == "uuid" then note.(uuid := value)
                   else if key == "title" then note.(title := value)
                   else if key == "author" then note.(author := value)
                   else if key == "creation_date" then note.(creationDate := value)
                   else if key == "last_update" then note.(lastUpdate := value)
                   else note
    ensures r.markdownText == note.markdownText && r.sharedFrom == note.sharedFrom
    ensures r.openEditor == note.openEditor && r.selected == note.selected && r.shared == note.shared
    ensures r.savedLocally == note.savedLocally && r.hasConflict == note.hasConflict
  {
    match FindChar(line, ':')
    case None => note
    case Some(c) =>
      var key := line[..c];
      var value := LeftTrim(line[c + 1..]);
      if key == "uuid" then note.(uuid := value)
      else if key == "title" then note.(title := value)
      else if key == "author" then note.(author := value)
      else if key == "creation_date" then note.(creationDate := value)
      else if key == "last_update" then note.(lastUpdate := value)
      else note
  }

  /** Every metadata line applied in order. */
  function ApplyAll(note: NoteComponent, meta: seq<string>): NoteComponent
    decreases meta
  {
    if meta == [] then note else ApplyAll(ApplyMeta(note, meta[0]), meta[1..])
  }

  /** Each body line followed by '\n'. */
  function BodyText(lines: seq<string>): (r: string)
    ensures |r| >= |lines|
  {
    if lines == [] then [] else lines[0] + "\n" + BodyText(lines[1..])
  }

  /** The reader's state between two getline calls. */
  datatype ParseState = ParseState(note: NoteComponent, inMeta: bool, metaDone: bool, body: string)

  const Start: ParseState := ParseState(EmptyNote, false, false, "")

  /**
   * One line of parseNoteFromFile: before the front matter is done a "---"
   * toggles inMeta (closing it ends the front matter), a line inside is
   * metadata and a line outside is dropped; afterwards every line goes to the body.
   */
  function Step(st: ParseState, line: string): ParseState
  {
    if !st.metaDone then
      if line == "---" then st.(inMeta := !st.inMeta, metaDone := st.inMeta)
      else if st.inMeta then st.(note := ApplyMeta(st.note, line))
      else st
    else st.(body := st.body + line + "\n")
  }

  function Run(st: ParseState, lines: seq<string>): ParseState
    decreases lines
  {
    if lines == [] then st else Run(Step(st, lines[0]), lines[1..])
  }

  lemma {:induction false} RunAppend(st: ParseState, a: seq<string>, b: seq<string>)
    ensures Run(st, a + b) == Run(Run(st, a), b)
    decreases a
  {
    if a == [] {
      assert a + b == b;
    } else {
      assert (a + b)[1..] == a[1..] + b;
      RunAppend(Step(st, a[0]), a[1..], b);
    }
  }

  /** The note parseNoteFromFile builds from the lines of a file. */
  function ParseNote(lines: seq<string>): (r: NoteComponent)
    ensures !r.openEditor && !r.selected && !r.shared && !r.savedLocally && !r.hasConflict
  {
    var st := Run(Start, lines);
    RunKeepsFlags(Start, lines);
    st.note.(markdownText := st.body)
  }

  lemma {:induction false} RunKeepsFlags(st: ParseState, lines: seq<string>)
    ensures var n := Run(st, lines).note;
      n.openEditor == st.note.openEditor && n.selected == st.note.selected && n.shared == st.note.shared
      && n.savedLocally == st.note.savedLocally && n.hasConflict == st.note.hasConflict
    decreases lines
  {
    if lines != [] {
      RunKeepsFlags(Step(st, lines[0]), lines[1..]);
    }
  }

  /** Lines before any "---" are dropped without changing the state. */
  lemma {:induction false} RunDropsPreamble(pre: seq<string>)
    requires forall k :: 0 <= k < |pre| ==> pre[k] != "---"
    ensures Run(Start, pre) == Start
  {
    if pre != [] {
      RunDropsPreamble(pre[1..]);
    }
  }

  lemma {:induction false} RunMeta(st: ParseState, meta: seq<string>)
    requires st.inMeta && !st.metaDone
    requires forall k :: 0 <= k < |meta| ==> meta[k] != "---"
    ensures Run(st, meta) == st.(note := ApplyAll(st.note, meta))
    decreases meta
  {
    if meta != [] {
      RunMeta(st.(note := ApplyMeta(st.note, meta[0])), meta[1..]);
    }
  }

  lemma {:induction false} RunBody(st: ParseState, post: seq<string>)
    requires st.metaDone
    ensures Run(st, post) == st.(body := st.body + BodyText(post))
    decreases post
  {
    if post != [] {
      var line := post[0];
      RunBody(st.(body := st.body + line + "\n"), post[1..]);
      assert st.body + line + "\n" + BodyText(post[1..]) == st.body + BodyText(post);
    }
  }

  /** A file without any "---" line has no metadata and an empty body. */
  lemma {:induction false} NoFrontMatter(lines: seq<string>)
    requires forall k :: 0 <= k < |lines| ==> lines[k] != "---"
    ensures ParseNote(lines) == EmptyNote
  {
    RunDropsPreamble(lines);
  }

  /**
   * A file laid out as preamble, "---", metadata, "---", body: the metadata
   * lines alone fill the note, and the body is every line after the closing
   * "---", each with its newline; later "---" lines are body text.
   */
  lemma {:induction false} FrontMatter(pre: seq<string>, meta: seq<string>, post: seq<string>)
    requires forall k :: 0 <= k < |pre| ==> pre[k] != "---"
    requires forall k :: 0 <= k < |meta| ==> meta[k] != "---"
    ensures ParseNote(pre + ["---"] + meta + ["---"] + post)
         == ApplyAll(EmptyNote, meta).(markdownText := BodyText(post))
  {
    var lines := pre + ["---"] + meta + ["---"] + post;
    RunAppend(Start, pre + ["---"] + meta + ["---"], post);
    RunAppend(Start, pre + ["---"] + meta, ["---"]);
    RunAppend(Start, pre + ["---"], meta);
    RunAppend(Start, pre, ["---"]);
    RunDropsPreamble(pre);
    var inside := Start.(inMeta := true);
    assert Run(Start, pre + ["---"]) == inside;
    RunMeta(inside, meta);
    var closed := inside.(note := ApplyAll(EmptyNote, meta), inMeta := false, metaDone := true);
    assert Run(Start, pre + ["---"] + meta + ["---"]) == closed;
    RunBody(closed, post);
  }

  /** The note read from a file: a default note when it cannot be opened. */
  function FileNote(file: Option<seq<string>>): NoteComponent
  {
    match file
    case None => EmptyNote
    case Some(lines) => ParseNote(lines)
  }

  /**
   * parseNoteFromFile: a file that cannot be opened gives a default note;
   * otherwise the getline loop, with its two flags and the body stream.
   */
  method ParseNoteFromFile(file: Option<seq<string>>) returns (note: NoteComponent)
    ensures note == FileNote(file)
  {
    if file.None? {
      return EmptyNote;
    }
    var lines := file.value;
    note := EmptyNote;
    var body: string := [];
    var inMeta := false;
    var metaDone := false;
    var i := 0;
    while i < |lines|
      invariant 0 <= i <= |lines|
      invariant ParseState(note, inMeta, metaDone, body) == Run(Start, lines[..i])
    {
      var line := lines[i];
      RunAppend(Start, lines[..i], [line]);
      assert lines[..i + 1] == lines[..i] + [line];
      if !metaDone {
        if line == "---" {
          inMeta := !inMeta;
          if !inMeta {
            metaDone := true;
          }
        } else if inMeta {
          note := ApplyMeta(note, line);
        }
      } else {
        body := body + line + "\n";
      }
      i := i + 1;
    }
    assert lines[..|lines|] == lines;
    note := note.(markdownText := body);
  }

  // ---------------------------------------------------------------------
  // generateUUID
  // ---------------------------------------------------------------------

  /** The template "xxxxxxxx-xxxx-4xxx-yxxx-xxxxxxxxxxxx", position by position. */
  function TemplateChar(i: int): char
  {
    if MarkdownRenderer.IsDashPosition(i) then '-'
    else if i == 14 then '4'
    else if i == 19 then 'y'
    else 'x'
  }

  function Template(): (t: string)
    ensures |t| == 36 && forall i :: 0 <= i < 36 ==> t[i] == TemplateChar(i)
  {
    seq(36, i => TemplateChar(i))
  }

  /** hex_chars[v]: "0123456789abcdef" indexed by a value in 0..15. */
  function HexDigit(v: int): (r: char)
    requires 0 <= v < 16
    ensures MarkdownRenderer.IsHex(r) && r != '-'
    ensures v < 8 ==> r !in {'8', '9', 'a', 'b'}
    ensures 8 <= v < 12 ==> r in {'8', '9', 'a', 'b'}
  {
    if v < 10 then (48 + v) as char else (87 + v) as char
  }

  /** A random-draw source meets uniform_int_distribution<>(0, 15). */
  ghost predicate ValidDraws(draw: nat -> int)
  {
    forall k: nat :: 0 <= draw(k) < 16
  }

  /** The number of 'x' and 'y' placeholders in `t`. */
  function Slots(t: string): nat
  {
    if t == [] then 0 else Slots(t[..|t| - 1]) + (if t[|t| - 1] in {'x', 'y'} then 1 else 0)
  }

  /**
   * A placeholder filled with draw k: 'x' takes hex_chars[d], 'y' takes
   * hex_chars[(d & 0x3) | 0x8], which is 8 + d % 4 for d in 0..15.
   */
  function FillChar(c: char, draw: nat -> int, k: nat): (r: char)
    requires ValidDraws(draw)
  {
    if c == 'x' then HexDigit(draw(k))
    else if c == 'y' then HexDigit(8 + draw(k) % 4)
    else c
  }

  /** The template with each placeholder filled by the next draw, left to right. */
  function Filled(t: string, draw: nat -> int): (r: string)
    requires ValidDraws(draw)
    ensures |r| == |t|
  {
    if t == [] then []
    else Filled(t[..|t| - 1], draw) + [FillChar(t[|t| - 1], draw, Slots(t[..|t| - 1]))]
  }

  lemma {:induction false} FilledAt(t: string, draw: nat -> int, j: nat)
    requires ValidDraws(draw) && j < |t|
    ensures Filled(t, draw)[j] == FillChar(t[j], draw, Slots(t[..j]))
  {
    if j < |t| - 1 {
      FilledAt(t[..|t| - 1], draw, j);
      assert t[..|t| - 1][..j] == t[..j];
    }
  }

  /**
   * The filled template is UUID-shaped; its version digit is '4' and its
   * variant digit is one of 8, 9, a, b.
   */
  lemma {:induction false} FilledTemplateIsUuid(draw: nat -> int)
    requires ValidDraws(draw)
    ensures MarkdownRenderer.UuidShape(Filled(Template(), draw))
    ensures Filled(Template(), draw)[14] == '4'
    ensures Filled(Template(), draw)[19] in {'8', '9', 'a', 'b'}
  {
    var u := Filled(Template(), draw);
    forall i | 0 <= i < 36
      ensures MarkdownRenderer.UuidCharOk(u, i)
    {
      FilledAt(Template(), draw, i);
    }
    FilledAt(Template(), draw, 14);
    FilledAt(Template(), draw, 19);
  }

  /** One position of the template walked: a placeholder takes the next draw, any other character stays. */
  lemma {:induction false} FillStep(t: string, draw: nat -> int, i: nat, c: char, k0: nat, k: nat, u0: string, u: string)
    requires ValidDraws(draw) && i < |t| && |u0| == |t|
    requires u0[..i] == Filled(t[..i], draw) && u0[i..] == t[i..] && k0 == Slots(t[..i])
    requires c == u0[i]
    requires u == (if c == 'x' then u0[i := HexDigit(draw(k0))]
                   else if c == 'y' then u0[i := HexDigit(8 + draw(k0) % 4)]
                   else u0)
    requires k == (if c == 'x' || c == 'y' then k0 + 1 else k0)
    ensures |u| == |t|
    ensures u[..i + 1] == Filled(t[..i + 1], draw)
    ensures u[i + 1..] == t[i + 1..]
    ensures k == Slots(t[..i + 1])
  {
    assert u0[i..][0] == t[i..][0];
    assert t[..i + 1][..i] == t[..i];
    assert u[i] == FillChar(t[i], draw, k0);
    assert u[..i + 1] == u0[..i] + [u[i]];
    assert u[i + 1..] == u0[i..][1..];
  }

  /** generateUUID: walk the template and replace each placeholder in place. */
  method GenerateUuid(draw: nat -> int) returns (uuid: string)
    requires ValidDraws(draw)
    ensures uuid == Filled(Template(), draw)
    ensures MarkdownRenderer.UuidShape(uuid)
  {
    uuid := Template();
    var k: nat := 0;
    for i := 0 to |uuid|
      invariant |uuid| == |Template()|
      invariant uuid[..i] == Filled(Template()[..i], draw)
      invariant uuid[i..] == Template()[i..]
      invariant k == Slots(Template()[..i])
    {
      ghost var uuid0, k0 := uuid, k;
      var c := uuid[i];
      if c == 'x' {
        uuid := uuid[i := HexDigit(draw(k))];
        k := k + 1;
      } else if c == 'y' {
        uuid := uuid[i := HexDigit(8 + draw(k) % 4)];
        k := k + 1;
      }
      FillStep(Template(), draw, i, c, k0, k, uuid0, uuid);
    }
    assert Template()[..|Template()|] == Template();
    FilledTemplateIsUuid(draw);
  }

  // ---------------------------------------------------------------------
  // The note store
  // ---------------------------------------------------------------------

  /** One entry of the notes directory: whether it is a regular file, its extension, and its lines (None when it cannot be opened). */
  datatype DirEntry = DirEntry(isRegularFile: bool, extension: string, content: Option<seq<string>>)

  /** The note a loaded file contributes: its parsed note, a fresh UUID if none was given, saved locally and not shared. */
  function LoadedNote(e: DirEntry, draw: nat -> int): (r: NoteComponent)
    requires ValidDraws(draw)
    ensures r.savedLocally && !r.shared
    ensures r.uuid != []
  {
    var n := FileNote(e.content);
    var generated := Filled(Template(), draw);
    assert |generated| == 36;
    var named := if n.uuid == [] then n.(uuid := generated) else n;
    named.(savedLocally := true, shared := false)
  }

  /** The world after loading the entries in directory order (one draw source per entry). */
  function LoadAll(notes: map<string, NoteComponent>, entries: seq<DirEntry>, draws: seq<nat -> int>): (r: map<string, NoteComponent>)
    requires |draws| == |entries| && forall k :: 0 <= k < |draws| ==> ValidDraws(draws[k])
    ensures notes.Keys <= r.Keys
  {
    if entries == [] then notes
    else
      var last := |entries| - 1;
      var before := LoadAll(notes, entries[..last], draws[..last]);
      var e := entries[last];
      if !e.isRegularFile || e.extension != ".md" then before
      else
        var n := LoadedNote(e, draws[last]);
        before[n.uuid := n]
  }

  /**
   * Every note that loading adds or replaces is keyed by its own UUID, is
   * saved locally and not shared; the other entities are left as they were.
   */
  lemma {:induction false} LoadAllMarksLocal(notes: map<string, NoteComponent>, entries: seq<DirEntry>, draws: seq<nat -> int>)
    requires |draws| == |entries| && forall k :: 0 <= k < |draws| ==> ValidDraws(draws[k])
    ensures forall id :: id in LoadAll(notes, entries, draws) ==>
              (id in notes && LoadAll(notes, entries, draws)[id] == notes[id])
              || (LoadAll(notes, entries, draws)[id].uuid == id
                  && LoadAll(notes, entries, draws)[id].savedLocally
                  && !LoadAll(notes, entries, draws)[id].shared)
  {
    if entries != [] {
      var last := |entries| - 1;
      LoadAllMarksLocal(notes, entries[..last], draws[..last]);
    }
  }

  /** A note file that names its UUID is stored under that UUID, with the parsed fields. */
  lemma {:induction false} LoadKeepsGivenUuid(notes: map<string, NoteComponent>, lines: seq<string>, draw: nat -> int)
    requires ValidDraws(draw) && ParseNote(lines).uuid != []
    ensures var r := LoadAll(notes, [DirEntry(true, ".md", Some(lines))], [draw]);
      var n := ParseNote(lines);
      n.uuid in r && r[n.uuid] == n.(savedLocally := true)
  {
    var entries := [DirEntry(true, ".md", Some(lines))];
    assert entries[..0] == [];
    assert [draw][..0] == [];
  }

  /** The notes to discard: shared and never saved locally. */
  predicate Discardable(n: NoteComponent)
  {
    n.shared && !n.savedLocally
  }

  class NoteManager {
    const noteDirectory: string
    var notes: map<string, NoteComponent>

    constructor (noteDirectory: string)
      ensures this.noteDirectory == noteDirectory && notes == map[]
    {
      this.noteDirectory := noteDirectory;
      notes := map[];
    }

    /**
     * loadAllNotesFromDisk: a missing directory is created and nothing is
     * loaded; otherwise every regular ".md" entry is parsed and set on the
     * entity named by its UUID.
     */
    method LoadAllNotesFromDisk(dirExists: bool, entries: seq<DirEntry>, draws: seq<nat -> int>)
      requires |draws| == |entries| && forall k :: 0 <= k < |draws| ==> ValidDraws(draws[k])
      modifies this
      ensures !dirExists ==> notes == old(notes)
      ensures dirExists ==> notes == LoadAll(old(notes), entries, draws)
    {
      if !dirExists {
        return;
      }
      for i := 0 to |entries|
        invariant notes == LoadAll(old(notes), entries[..i], draws[..i])
      {
        assert entries[..i + 1][..i] == entries[..i];
        assert draws[..i + 1][..i] == draws[..i];
        var e := entries[i];
        if !e.isRegularFile || e.extension != ".md" {
          continue;
        }
        var note := ParseNoteFromFile(e.content);
        if note.uuid == [] {
          var uuid := GenerateUuid(draws[i]);
          note := note.(uuid := uuid);
        }
        note := note.(savedLocally := true, shared := false);
        notes := notes[note.uuid := note];
      }
      assert entries[..|entries|] == entries;
      assert draws[..|draws|] == draws;
    }

    /**
     * createNewNote: a fresh UUID, the title "Note_" plus its first eight
     * characters, both dates from ctime without its newline, a heading as the
     * text, and the editor open; the note is set on the entity named by the UUID.
     */
    method CreateNewNote(author: string, draw: nat -> int, ctimeText: string) returns (note: NoteComponent)
      requires ValidDraws(draw) && ctimeText != []
      modifies this
      ensures MarkdownRenderer.UuidShape(note.uuid)
      ensures note.title == "Note_" + note.uuid[..8]
      ensures note.markdownText == "# " + note.title + "\n\n"
      ensures note.author == author
      ensures note.creationDate == note.lastUpdate == ctimeText[..|ctimeText| - 1]
      ensures note.openEditor && note.selected && note.savedLocally
      ensures !note.shared && !note.hasConflict && note.sharedFrom == []
      ensures notes == old(notes)[note.uuid := note]
    {
      var uuid := GenerateUuid(draw);
      var title := "Note_" + uuid[..8];
      var nowStr := ctimeText[..|ctimeText| - 1];
      note := EmptyNote.(uuid := uuid, title := title, author := author,
                         creationDate := nowStr, lastUpdate := nowStr,
                         markdownText := "# " + title + "\n\n",
                         openEditor := true, selected := true, savedLocally := true);
      notes := notes[uuid := note];
    }

    /** discardUnsavedSharedNotes: collect the shared, unsaved notes, then destroy them. */
    method DiscardUnsavedSharedNotes()
      modifies this
      ensures notes == map id | id in old(notes) && !Discardable(old(notes)[id]) :: old(notes)[id]
    {
      var toDelete: set<string> := {};
      var todo := notes.Keys;
      while todo != {}
        invariant todo <= notes.Keys
        invariant toDelete == set id | id in notes && id !in todo && Discardable(notes[id])
        decreases todo
      {
        var id :| id in todo;
        if Discardable(notes[id]) {
          toDelete := toDelete + {id};
        }
        todo := todo - {id};
      }
      notes := map id | id in notes && id !in toDelete :: notes[id];
    }
  }
}
