/**
 * The note and folder store of the main process (src/main/fileSystem.js).
 *
 * A folder is not a directory: it is one file `<name>.json` directly inside
 * the notes root, holding `{ notes: [...] }`. Every mutating note operation
 * reads that array, changes it as a sequence and writes the whole file back;
 * getNotesInFolder and getNote only read it. createFolder, renameFolder and
 * deleteFolder are single file operations on the volume; getFolderTree is a
 * mkdir when the root is missing, a readdir and one read per folder file.
 */
module FileSystem {
  import opened Wrappers
  import opened Disk
  import opened NameOrder

  /** One note record; timestamps are the instants the ISO strings denote. */
  datatype Note = Note(id: string, title: string, content: string, status: string,
                       createdAt: int, updatedAt: int)

  /**
   * What JSON.parse makes of a folder file: its `notes` array, or anything
   * else (text that does not parse, or a document whose `notes` is not an array).
   */
  datatype FileContent = Notes(notes: seq<Note>) | Malformed

  /** `{ ...note, folderPath }`: a note as handed to the renderer. */
  datatype LocatedNote = LocatedNote(note: Note, folderPath: Path)

  /** One entry of getFolderTree's result. */
  datatype FolderInfo = FolderInfo(name: string, path: Path, noteCount: nat)

  /** createFolder's result `{ path, name }`. */
  datatype FolderRef = FolderRef(path: Path, name: string)

  /** What updateNote throws: an fs error, or the id is not in the folder. */
  datatype StoreError = Io(io: IoError) | NoteNotFound(noteId: string, folderPath: Path)

  const JsonSuffix: string := ".json"

  /** name.endsWith('.json'): the name is some base name followed by the suffix. */
  function EndsWithJson(name: string): (r: bool)
    ensures r <==> exists base :: name == base + JsonSuffix
  {
    assert |name| >= |JsonSuffix| ==> name == name[..|name| - |JsonSuffix|] + name[|name| - |JsonSuffix|..];
    |name| >= |JsonSuffix| && name[|name| - |JsonSuffix|..] == JsonSuffix
  }

  /** name.slice(0, -5): the name without its last five characters, "" when it is shorter. */
  function StripJson(name: string): (r: string)
    ensures |name| < 5 ==> r == ""
    ensures |name| >= 5 ==> |r| == |name| - 5 && r == name[..|r|]
    ensures EndsWithJson(name) ==> r + JsonSuffix == name
  {
    if |name| >= 5 then name[..|name| - 5] else ""
  }

  lemma FolderFileName(name: string)
    ensures EndsWithJson(name + JsonSuffix)
    ensures StripJson(name + JsonSuffix) == name
  {
    assert (name + JsonSuffix)[..|name|] == name;
  }

  // ── readNotes / writeNotes ─────────────────────────────────────────────────

  /** readNotes: the stored array; [] for a missing, unreadable or malformed file. */
  function ReadNotes(fs: Volume<FileContent>, p: Path): (ns: seq<Note>)
    ensures !IsFile(fs, p) ==> ns == []
    ensures IsFile(fs, p) && fs[p].content.Malformed? ==> ns == []
    ensures IsFile(fs, p) && fs[p].content.Notes? ==> ns == fs[p].content.notes
  {
    var read := ReadFile(fs, p);
    if read.Ok? && read.value.Notes? then read.value.notes else []
  }

  /** writeNotes: replaces the whole file with `{ notes }`. */
  function WriteNotes(fs: Volume<FileContent>, p: Path, ns: seq<Note>): (r: Result<Volume<FileContent>, IoError>)
    ensures r.Ok? <==> IsDir(fs, Dirname(p)) && !IsDir(fs, p)
    ensures r.Ok? ==> ReadNotes(r.value, p) == ns
    ensures r.Ok? ==> forall q :: q != p ==> ReadNotes(r.value, q) == ReadNotes(fs, q)
  {
    WriteFile(fs, p, Notes(ns))
  }

  // ── Sequence operations on a folder's notes ────────────────────────────────

  /** ns[i] is the first note whose id is `id`. */
  predicate IsFirstWithId(ns: seq<Note>, id: string, i: int)
  {
    0 <= i < |ns| && ns[i].id == id && forall j :: 0 <= j < i ==> ns[j].id != id
  }

  /** notes.findIndex((n) => n.id === id), with -1 as None. */
  function FindIndex(ns: seq<Note>, id: string): (r: Option<nat>)
    ensures r.Some? ==> IsFirstWithId(ns, id, r.value)
    ensures r.None? <==> forall j :: 0 <= j < |ns| ==> ns[j].id != id
  {
    if ns == [] then None
    else if ns[0].id == id then Some(0)
    else match FindIndex(ns[1..], id)
      case None => None
      case Some(k) => Some(k + 1)
  }

  /** A note appended with an id not yet in the folder is found at the end. */
  lemma {:induction false} AppendedNoteIsFound(ns: seq<Note>, n: Note)
    requires forall m :: m in ns ==> m.id != n.id
    ensures FindIndex(ns + [n], n.id) == Some(|ns|)
  {
    assert (ns + [n])[|ns|] == n;
  }

  /** After createNote with a fresh id, getNote finds exactly the note it built, at the end. */
  lemma CreatedNoteIsFound(fs: Volume<FileContent>, p: Path, title: Option<string>,
                           content: Option<string>, status: Option<string>, id: string, now: int)
    requires forall m :: m in ReadNotes(fs, p) ==> m.id != id
    requires WriteNotes(fs, p, ReadNotes(fs, p) + [NewNote(id, title, content, status, now)]).Ok?
    ensures var fs' := WriteNotes(fs, p, ReadNotes(fs, p) + [NewNote(id, title, content, status, now)]).value;
            var after := ReadNotes(fs', p);
            |after| > 0 && FindIndex(after, id) == Some(|after| - 1)
            && after[|after| - 1] == NewNote(id, title, content, status, now)
  {
    AppendedNoteIsFound(ReadNotes(fs, p), NewNote(id, title, content, status, now));
  }

  /** notes.filter((n) => n.id !== id) */
  function RemoveId(ns: seq<Note>, id: string): (r: seq<Note>)
    ensures forall n :: n in r <==> n in ns && n.id != id
    ensures |r| <= |ns|
  {
    if ns == [] then []
    else (if ns[0].id == id then [] else [ns[0]]) + RemoveId(ns[1..], id)
  }

  /** Filtering distributes over concatenation, so the kept notes stay in order. */
  lemma {:induction false} RemoveIdAppend(a: seq<Note>, b: seq<Note>, id: string)
    ensures RemoveId(a + b, id) == RemoveId(a, id) + RemoveId(b, id)
  {
    if a != [] {
      assert (a + b)[1..] == a[1..] + b;
      RemoveIdAppend(a[1..], b, id);
    } else {
      assert a + b == b;
    }
  }

  /** Removing an id that is not there leaves the folder as it is. */
  lemma {:induction false} RemoveAbsentId(ns: seq<Note>, id: string)
    requires forall n :: n in ns ==> n.id != id
    ensures RemoveId(ns, id) == ns
  {
    if ns != [] {
      RemoveAbsentId(ns[1..], id);
      assert ns == [ns[0]] + ns[1..];
    }
  }

  lemma RemoveIdIdempotent(ns: seq<Note>, id: string)
    ensures RemoveId(RemoveId(ns, id), id) == RemoveId(ns, id)
  {
    RemoveAbsentId(RemoveId(ns, id), id);
  }

  /** The note createNote builds. */
  function NewNote(id: string, title: Option<string>, content: Option<string>,
                   status: Option<string>, now: int): (n: Note)
    ensures n.id == id && n.createdAt == now && n.updatedAt == now
    ensures n.title == (if title == None || title == Some("") then "Untitled" else title.value)
    ensures n.content == (if content.Some? then content.value else "")
    ensures n.status == (if status.Some? then status.value else "open")
  {
    Note(id, if title.Some? && title.value != "" then title.value else "Untitled",
         if content.Some? then content.value else "",
         if status.Some? then status.value else "open",
         now, now)
  }

  /** The spread in updateNote: supplied fields replace, updatedAt is refreshed. */
  function Patch(n: Note, title: Option<string>, content: Option<string>,
                 status: Option<string>, now: int): (r: Note)
    ensures r.id == n.id && r.createdAt == n.createdAt && r.updatedAt == now
    ensures r.title == (if title.Some? then title.value else n.title)
    ensures r.content == (if content.Some? then content.value else n.content)
    ensures r.status == (if status.Some? then status.value else n.status)
  {
    n.(title := if title.Some? then title.value else n.title,
       content := if content.Some? then content.value else n.content,
       status := if status.Some? then status.value else n.status,
       updatedAt := now)
  }

  /** A status-only update keeps the text and, on a clock that moved on, dates the note later. */
  lemma StatusOnlyUpdate(n: Note, status: string, now: int)
    requires now > n.updatedAt
    ensures var r := Patch(n, None, None, Some(status), now);
            r.title == n.title && r.content == n.content && r.status == status
            && r.updatedAt > n.updatedAt
  {
  }

  // ── Listing order ──────────────────────────────────────────────────────────

  /** Each located note against the given folder. */
  function Locate(ns: seq<Note>, p: Path): (r: seq<LocatedNote>)
    ensures |r| == |ns| && forall i :: 0 <= i < |ns| ==> r[i] == LocatedNote(ns[i], p)
  {
    seq(|ns|, i requires 0 <= i < |ns| => LocatedNote(ns[i], p))
  }

  /** Newest first: no note is followed by one updated later. */
  predicate NewestFirst(s: seq<LocatedNote>)
  {
    forall i :: 0 <= i < |s| - 1 ==> s[i].note.updatedAt >= s[i + 1].note.updatedAt
  }

  lemma ConsNewestFirst(h: LocatedNote, t: seq<LocatedNote>)
    requires NewestFirst(t) && (t != [] ==> h.note.updatedAt >= t[0].note.updatedAt)
    ensures NewestFirst([h] + t)
  {
    var s := [h] + t;
    forall i | 0 <= i < |s| - 1 ensures s[i].note.updatedAt >= s[i + 1].note.updatedAt {
      if i > 0 {
        assert s[i] == t[i - 1] && s[i + 1] == t[i];
      }
    }
  }

  function InsertNewestFirst(x: LocatedNote, s: seq<LocatedNote>): (r: seq<LocatedNote>)
    requires NewestFirst(s)
    ensures NewestFirst(r) && multiset(r) == multiset(s) + multiset{x}
    ensures r[0] == x || (s != [] && r[0] == s[0])
  {
    if s == [] || x.note.updatedAt >= s[0].note.updatedAt then
      ConsNewestFirst(x, s);
      [x] + s
    else
      var rest := InsertNewestFirst(x, s[1..]);
      ConsNewestFirst(s[0], rest);
      assert s == [s[0]] + s[1..];
      [s[0]] + rest
  }

  /** The comparator (a, b) => new Date(b.updatedAt) - new Date(a.updatedAt), as a stable sort. */
  function SortNewestFirst(s: seq<LocatedNote>): (r: seq<LocatedNote>)
    ensures NewestFirst(r) && multiset(r) == multiset(s)
  {
    if s == [] then []
    else
      assert s == [s[0]] + s[1..];
      InsertNewestFirst(s[0], SortNewestFirst(s[1..]))
  }

  lemma {:induction false} NewestFirstPairwise(s: seq<LocatedNote>, i: int, j: int)
    requires NewestFirst(s) && 0 <= i <= j < |s|
    ensures s[i].note.updatedAt >= s[j].note.updatedAt
    decreases j - i
  {
    if i < j {
      NewestFirstPairwise(s, i + 1, j);
    }
  }

  /** Ascending by name: no folder is followed by one whose name sorts before it. */
  predicate SortedByName(s: seq<FolderInfo>)
  {
    forall i :: 0 <= i < |s| - 1 ==> NameLeq(s[i].name, s[i + 1].name)
  }

  lemma ConsByName(h: FolderInfo, t: seq<FolderInfo>)
    requires SortedByName(t) && (t != [] ==> NameLeq(h.name, t[0].name))
    ensures SortedByName([h] + t)
  {
    var s := [h] + t;
    forall i | 0 <= i < |s| - 1 ensures NameLeq(s[i].name, s[i + 1].name) {
      if i > 0 {
        assert s[i] == t[i - 1] && s[i + 1] == t[i];
      }
    }
  }

  function InsertByName(x: FolderInfo, s: seq<FolderInfo>): (r: seq<FolderInfo>)
    requires SortedByName(s)
    ensures SortedByName(r) && multiset(r) == multiset(s) + multiset{x}
    ensures r[0] == x || (s != [] && r[0] == s[0])
  {
    if s == [] || NameLeq(x.name, s[0].name) then
      ConsByName(x, s);
      [x] + s
    else
      NameLeqTotal(x.name, s[0].name);
      var rest := InsertByName(x, s[1..]);
      ConsByName(s[0], rest);
      assert s == [s[0]] + s[1..];
      [s[0]] + rest
  }

  /** folders.sort((a, b) => a.name.localeCompare(b.name)) */
  function SortByName(s: seq<FolderInfo>): (r: seq<FolderInfo>)
    ensures SortedByName(r) && multiset(r) == multiset(s)
  {
    if s == [] then []
    else
      assert s == [s[0]] + s[1..];
      InsertByName(s[0], SortByName(s[1..]))
  }

  lemma {:induction false} SortedByNamePairwise(s: seq<FolderInfo>, i: int, j: int)
    requires SortedByName(s) && 0 <= i <= j < |s|
    ensures NameLeq(s[i].name, s[j].name)
    decreases j - i
  {
    if i < j {
      SortedByNamePairwise(s, i + 1, j);
      NameLeqTransitive(s[i].name, s[i + 1].name, s[j].name);
    } else {
      NameLeqTotal(s[i].name, s[i].name);
    }
  }

  // ── The folder listing ─────────────────────────────────────────────────────

  /** A regular file whose name ends in ".json". */
  predicate IsFolderFile(fs: Volume<FileContent>, p: Path)
  {
    IsFile(fs, p) && p != [] && EndsWithJson(p[|p| - 1])
  }

  /** `{ name, path, noteCount }` for one folder file. */
  function FolderEntry(fs: Volume<FileContent>, p: Path): FolderInfo
    requires p != []
  {
    FolderInfo(StripJson(p[|p| - 1]), p, |ReadNotes(fs, p)|)
  }

  /** The entries the listing makes of the given names inside root. */
  function Listing(fs: Volume<FileContent>, root: Path, names: set<string>): set<FolderInfo>
  {
    set n | n in names && IsFolderFile(fs, Join(root, n)) :: FolderEntry(fs, Join(root, n))
  }

  /** What getFolderTree reports for root, as a set. */
  function FolderTree(fs: Volume<FileContent>, root: Path): (r: set<FolderInfo>)
    ensures forall f :: f in r ==>
              |f.path| == |root| + 1 && Dirname(f.path) == root
              && IsFolderFile(fs, f.path) && f == FolderEntry(fs, f.path)
    ensures forall n :: IsDir(fs, root) && IsFolderFile(fs, Join(root, n)) ==>
              FolderEntry(fs, Join(root, n)) in r
    ensures !IsDir(fs, root) ==> r == {}
  {
    forall n ensures n in Children(fs, root) <==> Join(root, n) in fs {
      ChildrenAreEntries(fs, root, n);
    }
    if IsDir(fs, root) then Listing(fs, root, Children(fs, root)) else {}
  }

  lemma ListingStep(fs: Volume<FileContent>, root: Path, done: set<string>, n: string)
    requires n !in done
    ensures multiset(Listing(fs, root, done + {n})) ==
              multiset(Listing(fs, root, done))
              + (if IsFolderFile(fs, Join(root, n)) then multiset{FolderEntry(fs, Join(root, n))}
                 else multiset{})
  {
    var before := Listing(fs, root, done);
    var after := Listing(fs, root, done + {n});
    if IsFolderFile(fs, Join(root, n)) {
      var e := FolderEntry(fs, Join(root, n));
      assert e !in before;
      assert after == before + {e};
      assert multiset(before + {e}) == multiset(before) + multiset{e};
    } else {
      assert after == before;
    }
  }

  /** A folder just created is listed under its name, holding no notes. */
  lemma CreatedFolderIsListed(fs: Volume<FileContent>, parent: Path, name: string)
    requires WriteNotes(fs, Join(parent, name + JsonSuffix), []).Ok?
    ensures var fs' := WriteNotes(fs, Join(parent, name + JsonSuffix), []).value;
            FolderInfo(name, Join(parent, name + JsonSuffix), 0) in FolderTree(fs', parent)
  {
    var p := Join(parent, name + JsonSuffix);
    var fs' := WriteNotes(fs, p, []).value;
    FolderFileName(name);
    assert IsDir(fs', parent);
    assert IsFolderFile(fs', p);
    assert FolderEntry(fs', p) == FolderInfo(name, p, 0);
  }

  /** Deleting a note a second time changes nothing. */
  lemma DeleteNoteIdempotent(fs: Volume<FileContent>, p: Path, id: string)
    requires WriteNotes(fs, p, RemoveId(ReadNotes(fs, p), id)).Ok?
    ensures var fs1 := WriteNotes(fs, p, RemoveId(ReadNotes(fs, p), id)).value;
            WriteNotes(fs1, p, RemoveId(ReadNotes(fs1, p), id)) == Ok(fs1)
  {
    var fs1 := WriteNotes(fs, p, RemoveId(ReadNotes(fs, p), id)).value;
    RemoveIdIdempotent(ReadNotes(fs, p), id);
    assert fs1[p := File(Notes(RemoveId(ReadNotes(fs1, p), id)))] == fs1;
  }

  /** Renaming a folder file carries its notes to the new path and frees the old one. */
  lemma RenamedFolderKeepsNotes(fs: Volume<FileContent>, p: Path, newName: string)
    requires IsFile(fs, p) && Rename(fs, p, Join(Dirname(p), newName + JsonSuffix)).Ok?
    ensures var q := Join(Dirname(p), newName + JsonSuffix);
            var fs' := Rename(fs, p, q).value;
            ReadNotes(fs', q) == ReadNotes(fs, p) && (q != p ==> p !in fs')
  {
  }

  /** The loop of getFolderTree over the directory entries, in whatever order they come. */
  method CollectFolders(fs: Volume<FileContent>, root: Path, entries: set<string>)
    returns (folders: seq<FolderInfo>)
    ensures multiset(folders) == multiset(Listing(fs, root, entries))
  {
    folders := [];
    var todo := entries;
    ghost var done: set<string> := {};
    while todo != {}
      invariant todo + done == entries && todo !! done
      invariant multiset(folders) == multiset(Listing(fs, root, done))
      decreases |todo|
    {
      var name :| name in todo;
      var folderPath := Join(root, name);
      if IsFile(fs, folderPath) && EndsWithJson(name) {
        folders := folders + [FolderEntry(fs, folderPath)];
      }
      ListingStep(fs, root, done, name);
      todo := todo - {name};
      done := done + {name};
    }
  }

  // ── The store ──────────────────────────────────────────────────────────────

  /** The exported functions of fileSystem.js over one volume. */
  class Store {
    var fs: Volume<FileContent>

    ghost predicate Valid()
      reads this
    {
      WellFormed(fs)
    }

    constructor (initial: Volume<FileContent>)
      requires WellFormed(initial)
      ensures Valid() && fs == initial
    {
      fs := initial;
    }

    /** getFolderTree(rootPath): creates a missing root, then lists its folder files. */
    method GetFolderTree(root: Path) returns (r: Result<seq<FolderInfo>, IoError>)
      requires Valid()
      modifies this
      ensures Valid()
      ensures EnsureDir(old(fs), root).Err? ==>
                fs == old(fs) && r == Err(EnsureDir(old(fs), root).error)
      ensures EnsureDir(old(fs), root).Ok? ==> fs == EnsureDir(old(fs), root).value && r.Ok?
      ensures r.Ok? ==> SortedByName(r.value) && multiset(r.value) == multiset(FolderTree(fs, root))
    {
      if root !in fs {
        var made := MkdirP(fs, root);
        if made.Err? {
          return Err(made.error);
        }
        MkdirPKeepsWellFormed(fs, root);
        fs := made.value;
      }
      var folders: seq<FolderInfo> := [];
      var entries := ReadDir(fs, root);
      if entries.Ok? {
        folders := CollectFolders(fs, root, entries.value);
      }
      folders := SortByName(folders);
      r := Ok(folders);
    }

    /** getNotesInFolder(folderPath): the folder's notes, tagged, newest first. */
    function GetNotesInFolder(folderPath: Path): (r: seq<LocatedNote>)
      reads this
      ensures multiset(r) == multiset(Locate(ReadNotes(fs, folderPath), folderPath))
      ensures NewestFirst(r)
      ensures folderPath !in fs ==> r == []
    {
      if folderPath !in fs then []
      else SortNewestFirst(Locate(ReadNotes(fs, folderPath), folderPath))
    }

    /** getNote(folderPath, noteId): the first note with the id, tagged, or null. */
    function GetNote(folderPath: Path, noteId: string): (r: Option<LocatedNote>)
      reads this
      ensures r.None? <==> forall n :: n in ReadNotes(fs, folderPath) ==> n.id != noteId
      ensures r.Some? ==> r.value.folderPath == folderPath
                          && exists i :: IsFirstWithId(ReadNotes(fs, folderPath), noteId, i)
                                         && ReadNotes(fs, folderPath)[i] == r.value.note
    {
      var notes := ReadNotes(fs, folderPath);
      match FindIndex(notes, noteId)
      case None => None
      case Some(i) => Some(LocatedNote(notes[i], folderPath))
    }

    /** createNote: appends a new note and rewrites the folder file. */
    method CreateNote(folderPath: Path, title: Option<string>, content: Option<string>,
                      status: Option<string>, id: string, now: int)
      returns (r: Result<LocatedNote, IoError>)
      requires Valid()
      modifies this
      ensures Valid()
      ensures var note := NewNote(id, title, content, status, now);
              var w := WriteNotes(old(fs), folderPath, old(ReadNotes(fs, folderPath)) + [note]);
              if w.Ok? then fs == w.value && r == Ok(LocatedNote(note, folderPath))
              else fs == old(fs) && r == Err(w.error)
      ensures r.Ok? <==> IsDir(old(fs), Dirname(folderPath)) && !IsDir(old(fs), folderPath)
      ensures r.Ok? ==> ReadNotes(fs, folderPath) == old(ReadNotes(fs, folderPath)) + [r.value.note]
    {
      var notes := ReadNotes(fs, folderPath);
      var note := NewNote(id, title, content, status, now);
      notes := notes + [note];
      var written := WriteNotes(fs, folderPath, notes);
      if written.Err? {
        return Err(written.error);
      }
      WriteFileKeepsWellFormed(fs, folderPath, Notes(notes));
      fs := written.value;
      r := Ok(LocatedNote(note, folderPath));
    }

    /** updateNote: patches the first note with the id; throws if there is none. */
    method UpdateNote(folderPath: Path, noteId: string, title: Option<string>,
                      content: Option<string>, status: Option<string>, now: int)
      returns (r: Result<LocatedNote, StoreError>)
      requires Valid()
      modifies this
      ensures Valid()
      ensures var before := old(ReadNotes(fs, folderPath));
              match FindIndex(before, noteId)
              case None => fs == old(fs) && r == Err(NoteNotFound(noteId, folderPath))
              case Some(i) =>
                var updated := Patch(before[i], title, content, status, now);
                var w := WriteNotes(old(fs), folderPath, before[i := updated]);
                if w.Ok? then fs == w.value && r == Ok(LocatedNote(updated, folderPath))
                else fs == old(fs) && r == Err(Io(w.error))
      ensures r.Ok? ==> |ReadNotes(fs, folderPath)| == |old(ReadNotes(fs, folderPath))|
    {
      var notes := ReadNotes(fs, folderPath);
      var idx := FindIndex(notes, noteId);
      if idx.None? {
        return Err(NoteNotFound(noteId, folderPath));
      }
      var updated := Patch(notes[idx.value], title, content, status, now);
      notes := notes[idx.value := updated];
      var written := WriteNotes(fs, folderPath, notes);
      if written.Err? {
        return Err(Io(written.error));
      }
      WriteFileKeepsWellFormed(fs, folderPath, Notes(notes));
      fs := written.value;
      r := Ok(LocatedNote(updated, folderPath));
    }

    /** deleteNote: drops every note with the id and always rewrites the file. */
    method DeleteNote(folderPath: Path, noteId: string) returns (r: Outcome<IoError>)
      requires Valid()
      modifies this
      ensures Valid()
      ensures var w := WriteNotes(old(fs), folderPath, RemoveId(old(ReadNotes(fs, folderPath)), noteId));
              if w.Ok? then fs == w.value && r == Pass
              else fs == old(fs) && r == Fail(w.error)
    {
      var notes := ReadNotes(fs, folderPath);
      var kept := RemoveId(notes, noteId);
      var written := WriteNotes(fs, folderPath, kept);
      if written.Err? {
        return Fail(written.error);
      }
      WriteFileKeepsWellFormed(fs, folderPath, Notes(kept));
      fs := written.value;
      r := Pass;
    }

    /** createFolder: writes `{ notes: [] }` to parentPath/name.json. */
    method CreateFolder(parentPath: Path, name: string) returns (r: Result<FolderRef, IoError>)
      requires Valid()
      modifies this
      ensures Valid()
      ensures var folderPath := Join(parentPath, name + JsonSuffix);
              var w := WriteNotes(old(fs), folderPath, []);
              if w.Ok? then fs == w.value && r == Ok(FolderRef(folderPath, name))
              else fs == old(fs) && r == Err(w.error)
      ensures r.Ok? ==> ReadNotes(fs, r.value.path) == []
    {
      var folderPath := Join(parentPath, name + JsonSuffix);
      var written := WriteNotes(fs, folderPath, []);
      if written.Err? {
        return Err(written.error);
      }
      WriteFileKeepsWellFormed(fs, folderPath, Notes([]));
      fs := written.value;
      r := Ok(FolderRef(folderPath, name));
    }

    /** renameFolder: moves the folder file to a sibling named newName.json. */
    method RenameFolder(folderPath: Path, newName: string) returns (r: Result<Path, IoError>)
      requires Valid()
      modifies this
      ensures Valid()
      ensures var newPath := Join(Dirname(folderPath), newName + JsonSuffix);
              var m := Rename(old(fs), folderPath, newPath);
              if m.Ok? then fs == m.value && r == Ok(newPath)
              else fs == old(fs) && r == Err(m.error)
    {
      var newPath := Join(Dirname(folderPath), newName + JsonSuffix);
      var moved := Rename(fs, folderPath, newPath);
      if moved.Err? {
        return Err(moved.error);
      }
      RenameKeepsWellFormed(fs, folderPath, newPath);
      fs := moved.value;
      r := Ok(newPath);
    }

    /** deleteFolder: unlinks the folder file; a missing file is an error. */
    method DeleteFolder(folderPath: Path) returns (r: Outcome<IoError>)
      requires Valid()
      modifies this
      ensures Valid()
      ensures r.Pass? <==> old(IsFile(fs, folderPath))
      ensures var u := Unlink(old(fs), folderPath);
              if u.Ok? then fs == u.value && r == Pass
              else fs == old(fs) && r == Fail(u.error)
    {
      var removed := Unlink(fs, folderPath);
      if removed.Err? {
        return Fail(removed.error);
      }
      UnlinkKeepsWellFormed(fs, folderPath);
      fs := removed.value;
      r := Pass;
    }
  }
}
