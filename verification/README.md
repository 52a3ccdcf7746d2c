# NoteUp persistence layer in Dafny

This project models the persistence core of NoteUp, an Electron note-taking
app. It covers three pieces:

- the note/folder store of the main process (`src/main/fileSystem.js`);
- the settings store (`src/main/settings.js`);
- the Tab-key splice of the note editor (`src/renderer/src/components/NoteEditor.jsx`).

**Folders are files.** In the code as written a folder is one file
`<name>.json` directly inside the notes root, holding `{ notes: [...] }`.
Every mutating note operation reads that array, changes it and writes the
whole file back; `getNotesInFolder` and `getNote` only read it. Folder
operations are single-file operations: create, rename, unlink. So:

- the folder tree is the list of the root's regular `.json` files, sorted by
  name (src/main/fileSystem.js:22-41);
- `deleteFolder` throws on a missing file, because `unlinkSync` does
  (src/main/fileSystem.js:129);
- `getNote` returns null when no note has the id (src/main/fileSystem.js:73);
- `createNote` writes only the folder file, so a missing parent directory
  makes `writeFileSync` throw (src/main/fileSystem.js:57, 90).

**Files.**

- `wrappers.dfy` defines `Option`, `Result` and `Outcome`. They stand for
  JavaScript's null returns and thrown errors.
- `disk.dfy` (module `Disk`) is the file system. A `Volume<C>` is a map from
  paths (sequences of segments, `[]` is `/`) to `Dir` or `File(content)`.
  `existsSync(p)` is the membership test `p in fs`. `readdirSync` and
  `readFileSync` are functions that return the listing or the content, or
  the error code the call throws. `writeFileSync`, `unlinkSync`,
  `renameSync` and `mkdirSync` with `recursive` are functions that return the
  new volume or that error code.
- `disk.dfy` also defines `WellFormed`: the root is a directory and every
  entry's parent is a directory. A lemma shows each call keeps it.
- `name_order.dfy` (module `NameOrder`) is the order folder names are sorted
  in.
- `file_system.dfy` (module `FileSystem`) holds the sequence operations on a
  folder's notes, the listing, and class `Store`. `Store` has the volume as
  its field and one member per export. Read-only exports are functions that
  read the store. Mutating exports are methods that state the whole new
  volume and keep `WellFormed`.
- `settings.dfy` (module `Settings`) holds the settings document, its
  read-back after a write, and class `SettingsStore`. Its `dir` is fixed
  (`app.getPath('userData')`) and its `fs` is the volume. Like `Store`, it
  keeps `WellFormed` as its `Valid()` invariant across `writeSettings` and
  `setSetting`.
- `note_editor.dfy` (module `NoteEditor`) holds the Tab-key splice.

The clock and `randomUUID` are parameters (`now`, `id`). Timestamps are
integers.

## Model

| member | source | states |
|---|---|---|
| `Disk.Join` | src/main/fileSystem.js:25 | `path.join(dir, name)` for a single-segment name is dir extended by name, and its dirname is dir |
| `Disk.DirnameJoin` | src/main/fileSystem.js:123 | `path.dirname` of a non-root path is its prefix one segment shorter; joining it with the last segment gives the path back |
| `Disk.ReadDir` | src/main/fileSystem.js:22 | readdirSync succeeds exactly on a directory and lists exactly the names whose joined path is an entry |
| `Disk.ChildrenAreEntries` | src/main/fileSystem.js:22-25 | a name is listed for a directory iff join(dir, name) is an entry |
| `Disk.ReadFile` | src/main/fileSystem.js:49 | readFileSync succeeds exactly on a regular file and returns its content |
| `Disk.WriteFile` | src/main/fileSystem.js:56-58 | writeFileSync succeeds iff the parent is a directory and the path is not one; then only that path changes and reading it gives the written content |
| `Disk.Unlink` | src/main/fileSystem.js:128-130 | unlinkSync succeeds exactly on a regular file and removes only that path |
| `Disk.Rename` | src/main/fileSystem.js:122-126 | renameSync needs the source and the target's parent; a file moves to the target (replacing a file there, failing on a directory), renaming to itself changes nothing |
| `Disk.MkdirP` | src/main/fileSystem.js:16-18 | recursive mkdir fails iff some prefix of the path is a file; otherwise the path is a directory, old entries are kept and only missing ancestors are added, as directories |
| `Disk.EnsureDir` | src/main/settings.js:17-21 | `if (!existsSync(p)) mkdirSync(p, { recursive: true })`: nothing happens when p exists; it succeeds iff p exists or no prefix of p is a file, and then p exists and every old entry is kept |
| `Disk.WriteFileKeepsWellFormed` | src/main/fileSystem.js:57 | a successful write keeps every entry inside a directory |
| `Disk.UnlinkKeepsWellFormed` | src/main/fileSystem.js:129 | a successful unlink keeps every entry inside a directory |
| `Disk.MkdirPKeepsWellFormed` | src/main/fileSystem.js:17 | a successful recursive mkdir keeps every entry inside a directory |
| `Disk.MoveTreeKeepsWellFormed` | src/main/fileSystem.js:124 | moving a directory with its contents onto a free or empty place keeps every entry inside a directory |
| `Disk.RenameKeepsWellFormed` | src/main/fileSystem.js:124 | a successful rename keeps every entry inside a directory |
| `NameOrder.NameLeqTotal` | src/main/fileSystem.js:41 | any two folder names are comparable |
| `NameOrder.NameLeqTransitive` | src/main/fileSystem.js:41 | the name order is transitive |
| `NameOrder.NameLeqAntisymmetric` | src/main/fileSystem.js:41 | for the code-point stand-in, names that sort both ways are equal (localeCompare itself lacks this) |
| `FileSystem.EndsWithJson` | src/main/fileSystem.js:24 | `endsWith('.json')` holds exactly when the name is some base name followed by `.json` |
| `FileSystem.StripJson` | src/main/fileSystem.js:26 | `slice(0, -5)` drops the last five characters ("" for a shorter name), so a `.json` name strips to its base |
| `FileSystem.FolderFileName` | src/main/fileSystem.js:24-26 | `name + ".json"` passes the suffix test and strips back to `name` |
| `FileSystem.ReadNotes` | src/main/fileSystem.js:47-54 | a missing path, a directory or a malformed file reads as []; a folder file reads as its stored array |
| `FileSystem.WriteNotes` | src/main/fileSystem.js:56-58 | writeNotes succeeds iff the parent is a directory and the path is not one; then p reads back (through readNotes) as ns and every other path reads as before |
| `FileSystem.FindIndex` | src/main/fileSystem.js:96 | the result is the first index with the id, and none exactly when no note has it |
| `FileSystem.AppendedNoteIsFound` | src/main/fileSystem.js:72 | a note appended with an id not yet present is the one found by id, at the end |
| `FileSystem.CreatedNoteIsFound` | src/main/fileSystem.js:77-91 | after createNote with a fresh id, the folder's last note is the created note and find-by-id returns it |
| `FileSystem.RemoveId` | src/main/fileSystem.js:111 | the filter keeps exactly the notes without the id and never grows the list |
| `FileSystem.RemoveIdAppend` | src/main/fileSystem.js:111 | the filter distributes over concatenation, so the kept notes stay in their order |
| `FileSystem.RemoveAbsentId` | src/main/fileSystem.js:111 | filtering out an absent id leaves the list unchanged |
| `FileSystem.RemoveIdIdempotent` | src/main/fileSystem.js:111 | filtering twice is filtering once |
| `FileSystem.NewNote` | src/main/fileSystem.js:77-88 | a falsy title becomes "Untitled", omitted content "" and omitted status "open"; createdAt == updatedAt == now |
| `FileSystem.Patch` | src/main/fileSystem.js:98-104 | a field changes only when supplied (so "" is a valid title); id and createdAt are kept; updatedAt becomes now |
| `FileSystem.StatusOnlyUpdate` | src/main/fileSystem.js:98-104 | a status-only update keeps title and content and, with a later clock, makes updatedAt strictly larger |
| `FileSystem.Locate` | src/main/fileSystem.js:66 | each note is tagged with the folder path, in place |
| `FileSystem.InsertNewestFirst` | src/main/fileSystem.js:67 | inserting into a newest-first list keeps it newest-first and adds exactly that note |
| `FileSystem.SortNewestFirst` | src/main/fileSystem.js:67 | the sort returns a permutation ordered newest-first by updatedAt |
| `FileSystem.NewestFirstPairwise` | src/main/fileSystem.js:67 | in the sorted list every note is at least as recent as every later one |
| `FileSystem.InsertByName` | src/main/fileSystem.js:41 | inserting into a name-sorted list keeps it sorted and adds exactly that entry |
| `FileSystem.SortByName` | src/main/fileSystem.js:41 | the sort returns a permutation ordered ascending by name |
| `FileSystem.SortedByNamePairwise` | src/main/fileSystem.js:41 | in the sorted list every name sorts no later than every later one |
| `FileSystem.FolderTree` | src/main/fileSystem.js:22-35 | the listing holds exactly the regular `.json` files directly in root, each with its stripped name, its path and its note count (0 when malformed); nothing when root is not a directory |
| `FileSystem.ListingStep` | src/main/fileSystem.js:23-35 | one more directory entry adds its folder entry once, if it is a `.json` file, and nothing otherwise |
| `FileSystem.CollectFolders` | src/main/fileSystem.js:23-36 | the loop over the entries, in any order, pushes each folder entry exactly once |
| `FileSystem.CreatedFolderIsListed` | src/main/fileSystem.js:116-118 | a folder just created shows up in the parent's listing under its name with noteCount 0 |
| `FileSystem.DeleteNoteIdempotent` | src/main/fileSystem.js:109-112 | deleting the same id a second time leaves the volume as it is |
| `FileSystem.RenamedFolderKeepsNotes` | src/main/fileSystem.js:122-126 | after renaming a folder file, the new path holds the same notes and the old path is gone |
| `FileSystem.Store.GetFolderTree` | src/main/fileSystem.js:15-43 | creates a missing root (failing only as recursive mkdir does), then returns the root's folder files sorted by name, each exactly once; an existing root that is a file lists nothing |
| `FileSystem.Store.GetNotesInFolder` | src/main/fileSystem.js:62-68 | a permutation of the stored notes tagged with the folder, newest-first; [] for a missing path |
| `FileSystem.Store.GetNote` | src/main/fileSystem.js:70-75 | null exactly when no note has the id; otherwise the first note with it, tagged |
| `FileSystem.Store.CreateNote` | src/main/fileSystem.js:77-92 | appends exactly the new note after the stored (or, if unreadable, no) notes and writes the file; fails, changing nothing, iff the parent is not a directory or the path is one |
| `FileSystem.Store.UpdateNote` | src/main/fileSystem.js:94-107 | an absent id throws and writes nothing; otherwise only the first note with the id is replaced by its patch, the list keeps its length and order |
| `FileSystem.Store.DeleteNote` | src/main/fileSystem.js:109-112 | always rewrites the file with the notes filtered by id, also for a missing file or an absent id |
| `FileSystem.Store.CreateFolder` | src/main/fileSystem.js:116-120 | writes an empty list to parent/name.json, replacing any notes there, and returns its path and name |
| `FileSystem.Store.RenameFolder` | src/main/fileSystem.js:122-126 | renames to dirname(old)/newName.json and returns that path; the volume is unchanged on failure |
| `FileSystem.Store.DeleteFolder` | src/main/fileSystem.js:128-130 | succeeds exactly when the path is a regular file, and removes it |
| `Settings.ReadSettings` | src/main/settings.js:8-15 | a missing, unreadable or unparsable file reads as the empty document |
| `Settings.Serialize` | src/main/settings.js:21 | the written document keeps exactly the members whose value is not undefined |
| `Settings.Lookup` | src/main/settings.js:25 | `doc[key] ?? null`: null for an absent, null or undefined member, the stored value otherwise |
| `Settings.Assigned` | src/main/settings.js:21-31 | the document written after `settings[key] = value`: key holds value unless value is undefined, every other key keeps its stored value unless that is undefined |
| `Settings.GetAfterSet` | src/main/settings.js:28-32 | after setting a value other than null and undefined, the key reads back as that value |
| `Settings.SetUndefinedRemoves` | src/main/settings.js:28-32 | setting undefined drops the key from the file, so it reads back as null |
| `Settings.SetLeavesOtherKeys` | src/main/settings.js:29-31 | every other key reads back as before |
| `Settings.SetIdempotent` | src/main/settings.js:28-32 | setting the same key to the same value twice gives the same document as once |
| `Settings.SetOnEmpty` | src/main/settings.js:12-13 | over a missing or unparsable file the new document holds only the key |
| `Settings.SettingsStore.SettingsPath` | src/main/settings.js:6 | SETTINGS_PATH is `settings.json` directly inside the settings directory |
| `Settings.SettingsStore.GetSetting` | src/main/settings.js:24-26 | never undefined; null when the file is missing or unparsable; a non-null result is the stored member, and a stored non-null member is returned |
| `Settings.SettingsStore.WriteSettings` | src/main/settings.js:17-22 | creates the settings directory only when it is missing, then rewrites the file; on success the file reads back as the data without its undefined members; a failed write after a successful mkdir keeps the new directory |
| `Settings.SettingsStore.SetSetting` | src/main/settings.js:28-32 | rewrites the whole document with the key assigned; on success the key reads back as the value (null for undefined) and every other key as before |
| `NoteEditor.Slice` | src/renderer/src/components/NoteEditor.jsx:65 | `slice` with indices inside the text is the subsequence between them |
| `NoteEditor.HandleContentKeyDown` | src/renderer/src/components/NoteEditor.jsx:58-73 | keys other than Tab change nothing; Tab puts the cursor (start = end) at start + 1 |
| `NoteEditor.TabSplice` | src/renderer/src/components/NoteEditor.jsx:62-65 | with 0 <= start <= end <= length, the new text is content[..start] + "\t" + content[end..] |
| `NoteEditor.TabShape` | src/renderer/src/components/NoteEditor.jsx:64-71 | the length becomes length - (end - start) + 1, index start holds a tab, the text before start is kept, and the text after the cursor is the old text after end |
| `NoteEditor.TabWithoutSelectionInserts` | src/renderer/src/components/NoteEditor.jsx:59-65 | with no selection Tab is a pure insertion: deleting index start gives back the original |

## Left out

- Disk I/O and the JSON text are not modelled. A file holds its parsed content: a note array or `Malformed`, a settings object or `Unparsable`. The JSON format enters only through the write-then-read round trip.
- `randomUUID()` and `new Date().toISOString()` are parameters `id` and `now`. Timestamps are integers; ISO formatting and `new Date` parsing (and NaN for a bad date) are left out.
- `localeCompare` is replaced by code-point order (`NameOrder.NameLeq`). Both are total and transitive, but the stand-in is also antisymmetric and localeCompare is not: distinct, canonically equivalent names (U+00E9 and "e" followed by U+0301) compare equal there. Locale collation is not modelled.
- A `string` here is a sequence of Unicode scalar values, while JavaScript's `slice`, `selectionStart`/`selectionEnd` and `slice(0, -5)` count UTF-16 code units (src/renderer/src/components/NoteEditor.jsx:62-65, src/main/fileSystem.js:26). The splice lemmas hold in either unit, but the model cannot represent a selection that splits a surrogate pair.
- FileSystem.SortByName: claims sortedness and permutation, not localeCompare's tie-breaking.
- FileSystem.SortNewestFirst: claims newest-first order and permutation, not the stable order of ties. The sort does keep ties in their stored order.
- OS permissions are not modelled. The only readdir failure is a root that is not a directory, and then the listing is [], as the catch at src/main/fileSystem.js:37-39 makes it. A failure in the middle of the loop is not modelled: readdir is all or nothing here.
- Disk.Rename: for a directory source (never a folder file in this store) the contract states only that the source and the target's parent must exist. The body moves the whole subtree, and `RenameKeepsWellFormed` is proved for it.
- `path.join` normalisation is not modelled. A name containing `/` or `..` would reach another directory; here a name is always one segment.
- Symbolic links are not modelled (`Dirent.isFile()` is false for a link).
- JavaScript `null` passed as title, content or status is not modelled. Only "omitted" (`undefined`, `None`) is. `updateNote` would store a null field. In `createNote` the destructuring defaults (src/main/fileSystem.js:77) apply only to `undefined`, so a null `content` or `status` would be stored as null, while a null `title` becomes "Untitled" through `title || 'Untitled'` (:83).
- Note arrays holding values that are not note records are not modelled.
- A settings file that parses to something other than a plain object is not modelled. That means `null`, an array, a number, a boolean or a string (src/main/settings.js:25, 30, 21):
  - `null`: `getSetting` throws at `null[key]`, and `setSetting` throws at `settings[key] = value` before anything is written.
  - An array: `getSetting` returns null for an ordinary key such as `rootPath`, but answers `length` and index keys. `setSetting` with an ordinary key puts a named property on the array, which `JSON.stringify` drops. The file keeps the array, and `getSetting(key)` still returns null afterwards, so the set-then-get property of this model fails there.
  - A number, boolean or string: `getSetting` returns null for an ordinary key such as `rootPath`. The exceptions are a string's `length` and index keys (`getSetting('length')` on `"abc"` gives 3) and the methods of `String.prototype`, `Number.prototype` and `Boolean.prototype` (`toFixed`, `valueOf`). `setSetting` assigns a property to a primitive. In strict-mode code that throws a TypeError; in sloppy mode it is ignored and the same value is written back.
- Settings keys inherited from `Object.prototype` (`toString`, `__proto__`) are not modelled. Setting values are undefined, null, booleans, integers and strings.
- The settings directory is a fixed path given to the constructor (`app.getPath('userData')`). The settings file and the notes live on separate volumes. What that loses: the notes root is chosen by the user (src/renderer/src/App.jsx:113), and if it is the settings directory, `settings.json` is itself a regular `.json` file in the root. `getFolderTree` would then list it as a folder with noteCount 0, and `createNote` into that folder would overwrite the settings.
- NoteEditor.HandleContentKeyDown: the debounced save it schedules, `preventDefault`, and the `requestAnimationFrame` delay before the cursor moves are not modelled. The timer, React state and save indicator are UI.
- Electron plumbing, IPC and the dialog are not modelled (src/main/index.js, src/preload/index.js). Neither is the floating-window registry or the React components (App, Sidebar, NoteList, Settings, FloatingNoteView, main.jsx).
- Call sites that disagree with the store are not modelled. The preload passes one `filePath` to getNote and deleteNote, `reorderNotes` is imported but never defined, and the sidebar expects `children`. The model follows fileSystem.js.
- Concurrency is not modelled: every operation runs to completion on its own.
