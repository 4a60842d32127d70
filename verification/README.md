# Shell emulator over a zip archive — a Dafny model

The modelled program is a small Unix-like shell. It opens a zip archive as
a read-only virtual file system and accepts `ls`, `cd`, `mv`, `tail`,
`date` and `exit`. Every input line is appended to a session log, and the
log is saved when the session exits.

This project models the program's core:

- the `VirtualFileSystem`:
  - the map from `/`-prefixed member names to entries;
  - path normalisation;
  - `list_dir`, `change_dir`, `read_file` and `move`.
- the `ShellEmulator`:
  - `log` and `execute_command` with its dispatch and error trap;
  - the verbs `ls`, `cd`, `mv` and `tail`;
  - the prompt;
  - line-by-line execution, as in the startup script.

All of it is written as pure functions over immutable records, so lemmas can compose the operations.

Modules, one concept each:

- `Strings` — Python's `str.split(sep)`, `'sep'.join`, `str.split()`, `str.strip()`, `rstrip('/')` and `xs[-n:]`. Whitespace is the set of code points for which `str.isspace()` holds.
- `Ordering` — Python's string order (code point by code point, a proper prefix first) and `sorted` of a set.
- `Paths` — `posixpath.join` and `posixpath.normpath`. It covers the leading-slash rule (exactly two leading slashes are kept), `.` and `..`, and `..` clamped at the root.
- `Vfs` — the archive map and the four file-system operations. `ListDir` cannot fail and returns a `Listing`. `ChangeDir`, `ReadFile` and `Move` each return a `Result` whose error names the user's argument, as the exception message does.
- `Shell` — the session (user, file system, log), the dispatcher, and a run of many lines.
- `Examples` — the scenarios of the repository's unit tests, and the quirks of the prefix test, over concrete archives.

Printed messages (Russian in the program) are a `Notice` datatype, not text.

How each session can end is a `Status`:

- `Exited(saved)`: `exit` raises `SystemExit`, which the `except Exception` trap does not catch. The log saved at that point already holds the `exit` line.
- `Crashed`: a line of nothing but whitespace passes the emptiness test, but `split()` returns no words, so `parts[0]` raises `IndexError` outside the `try`.

The model follows the code where its behaviour is surprising:

- A key is `'/' + name.rstrip('/')` with no normalisation. An archive member named `a/../b` gives the key `/a/../b`, which no normalised path reaches.
- `change_dir` tests a plain string prefix, not a path-segment prefix. So `cd fil` succeeds when `/file1.txt` exists, and `cd` into a file succeeds (`Examples.CdPartialName`, `Examples.CdIntoFile`).
- A directory member `dir1/` is keyed `/dir1`, without the slash. `list_dir` always reports `dir1` as a file. It also reports `dir1` as a directory when some key lies below `/dir1/` (`Examples.ExplicitDirListedTwice`). An empty directory member is listed only as a file.
- `move` renames the one exact key. Keys below a renamed directory keep their old paths (`Examples.MoveDoesNotCascade`), and the cursor may end up where no key starts.

## Model

| member | source | states |
|---|---|---|
| Vfs.MemberKey | shell_emulator.py:24 | a key starts with `/` and ends with `/` only if it is the root itself |
| Vfs.FileTreeKeys | shell_emulator.py:21-25 | the keys of the built map are exactly the keys of the archive members |
| Vfs.FileTreeKeysFromMembers | shell_emulator.py:21-25 | every key of the built map is the key of some archive member |
| Vfs.FileTreeKeysOfMembers | shell_emulator.py:21-25 | the key of every archive member is in the built map |
| Vfs.FileTreeLastWins | shell_emulator.py:23-24 | when members share a key, the last one in archive order is the entry kept |
| Vfs.Open | shell_emulator.py:12-15 | a freshly opened file system is valid (cursor canonical, keys absolute) with the cursor at `/`, and no key but `/` ends with `/` |
| Paths.NormPathCanonical | shell_emulator.py:68 | `normpath` of an absolute path is canonical: one or two leading slashes, then segments that are not empty, `.` or `..` and hold no `/` |
| Paths.NormPathOfCanonical | shell_emulator.py:68 | `normpath` leaves a canonical path unchanged |
| Paths.NormPathIdempotent | shell_emulator.py:68 | normalising an absolute path twice is the same as once |
| Paths.NormalizeCanonical | shell_emulator.py:65-68 | from any absolute cursor, `_normalize_path` of any path, relative or absolute, is canonical |
| Paths.NormalizeIdempotent | shell_emulator.py:65-68 | a path normalised from an absolute cursor normalises to itself again, from any cursor |
| Paths.CanonicalShape | shell_emulator.py:65-68 | a normalised path starts with `/`, ends with `/` only when it is `/` or `//`, and splits into canonical segments |
| Paths.NormalizeRelative | shell_emulator.py:66-67 | a relative path is resolved against the cursor's segments, as `join` and then `normpath` |
| Paths.NormalizeDot | shell_emulator.py:65-68 | `.` names the cursor itself |
| Paths.NormalizeDotDot | shell_emulator.py:65-68 | `..` names the parent directory, and at the root it stays at the root |
| Paths.NormalizeChild | shell_emulator.py:65-68 | a plain name names the child of the cursor |
| Vfs.ListDir | shell_emulator.py:27-40 | both lists are strictly ascending with no repeats; every file is a non-empty name with no `/` whose prefixed path is a key; every directory is the first segment of some key below the prefix; every key strictly below the prefix contributes its first segment to the directories or its remainder to the files |
| Vfs.ChildrenFacts | shell_emulator.py:33-39 | each collected file name and directory name is a single path segment that comes from a key below the prefix |
| Vfs.ChangeDir | shell_emulator.py:42-47 | succeeds exactly when the normalised path is `/` or begins some key as a string; on success only the cursor changes, to the normalised path; on failure the error names the argument; validity is kept |
| Vfs.ReadFile | shell_emulator.py:49-55 | succeeds exactly when the normalised path is a key whose entry is not a directory, giving that entry's content; otherwise the error names the argument |
| Vfs.Move | shell_emulator.py:57-63 | succeeds exactly when the normalised source is a key; the destination key then holds the source's entry, the source key is gone unless it is the destination, every other key keeps its presence and entry, and the cursor is unchanged; otherwise the error names the source |
| Vfs.CdThenListDot | shell_emulator.py:27-47 | after a successful `change_dir(p)`, listing `.` gives the same result as listing `p` beforehand |
| Vfs.CdListedDir | shell_emulator.py:27-47 | every plain directory name in the listing of `.` can be entered, and the cursor becomes that child |
| Vfs.ListedFileReadable | shell_emulator.py:27-55 | every plain file name in the listing of `.` is a key, and it is readable exactly when its entry is not a directory |
| Vfs.CdDotDotAtRoot | shell_emulator.py:42-47 | `cd ..` at the root succeeds and stays at the root |
| Vfs.CdToCwd | shell_emulator.py:42-47 | changing to the cursor's own path either leaves the state unchanged or fails with the not-found error |
| Vfs.ReadAfterMove | shell_emulator.py:49-63 | after a move the destination reads exactly as the source did, and a distinct source no longer reads |
| Vfs.MoveOntoItself | shell_emulator.py:57-63 | moving a key onto itself leaves the file system unchanged |
| Vfs.MoveBack | shell_emulator.py:57-63 | moving to a free destination and back restores the original file system |
| Vfs.MoveSize | shell_emulator.py:57-63 | a move keeps the number of keys when the destination was free or equals the source, and loses one otherwise |
| Strings.SplitJoin | shell_emulator.py:174 | joining lines that hold no separator, then splitting at the separator, gives the lines back |
| Strings.JoinSplit | shell_emulator.py:37 | the round-trip partner of `Split`, which is used at :37 and :174: joining the parts of any text split at a separator, with that separator, gives the text back |
| Strings.FirstPart | shell_emulator.py:37 | `rel.split('/')[0]` holds no `/`, begins the text, and is followed by `/` when the text has one |
| Strings.TrimEnd | shell_emulator.py:24 | `rstrip` keeps a prefix, removes only the given characters, and leaves no such character at the end |
| Strings.Strip | shell_emulator.py:174 | `strip()` keeps the middle of the text, between runs of whitespace, with no whitespace at either end |
| Strings.Words | shell_emulator.py:117 | `split()` yields non-empty words with no whitespace |
| Strings.WordsEmpty | shell_emulator.py:115-118 | `split()` yields no words exactly when the line is all whitespace |
| Strings.WordsOfJoin | shell_emulator.py:117 | any list of words joined by single spaces splits back into the same words, the empty list included |
| Strings.WordsOfStrip | shell_emulator.py:90 | stripping a line does not change its words |
| Strings.LastNFacts | shell_emulator.py:175 | `xs[-n:]` keeps the last `min(n, len(xs))` elements, in order |
| Ordering.LessTotal | shell_emulator.py:40 | any two different strings are ordered one way or the other |
| Ordering.LessTransitive | shell_emulator.py:40 | the string order is transitive |
| Ordering.LeastExists | shell_emulator.py:40 | every non-empty finite set of strings has a least element |
| Ordering.SortSet | shell_emulator.py:40 | `sorted` of a set holds exactly its elements, each once, strictly ascending |
| Shell.Start | shell_emulator.py:73-74 | a new session has a valid file system and an empty log |
| Shell.TailShowsLastLines | shell_emulator.py:174-175 | `tail` shows the last `min(10, n)` of the `n` lines of the stripped text, in their original order |
| Shell.TailOfLines | shell_emulator.py:173-176 | for lines joined by newlines, neither end blank, `tail` shows the last ten lines, or all of them when there are at most ten |
| Shell.Dispatch | shell_emulator.py:121-135 | dispatch never touches the log; it stops the session exactly for `exit`, with the log as it stands; only `cd` moves the cursor and only `mv` changes the map; validity is kept |
| Shell.Execute | shell_emulator.py:113-137 | every line, empty or not, is logged first with the user; the session crashes exactly on a non-empty all-whitespace line and exits exactly when the first word is `exit`, saving the log including that line; only `cd` moves the cursor and only `mv` changes the map; validity is kept |
| Shell.Run | shell_emulator.py:89-90 | running lines one by one logs each line that ran, with the user, in order; a run that has not stopped has consumed every line, and a stopped run consumed at least one |
| Shell.RunStops | shell_emulator.py:86-90 | a run that crashed was stopped by a non-empty all-whitespace line, its last consumed one; a run that exited saved the log as it stands |
| Shell.RunKeepsValid | shell_emulator.py:86-90 | running any lines keeps a valid file system valid |
| Shell.Parsed | shell_emulator.py:113-119 | a line with words is logged and then dispatched on its first word with the rest as arguments |
| Shell.CdUsageNotice | shell_emulator.py:150-153 | `cd` with no argument prints its usage notice and changes nothing but the log |
| Shell.MvUsageNotice | shell_emulator.py:161-164 | `mv` with other than two arguments prints its usage notice and changes nothing but the log |
| Shell.TailUsageNotice | shell_emulator.py:168-171 | `tail` with no argument prints its usage notice and changes nothing but the log |
| Shell.UnknownVerbNotice | shell_emulator.py:134-135 | an unknown verb is reported by name and the session goes on |
| Shell.CdCommand | shell_emulator.py:150-155 | `cd p` either moves the cursor silently or, through the trap at :136-137, prints the not-found error naming `p`, leaving the state as it was |
| Shell.MvCommand | shell_emulator.py:161-166 | `mv a b` either renames silently or, through the trap at :136-137, prints the not-found error naming `a`, leaving the state as it was |
| Shell.TailCommand | shell_emulator.py:168-176 | `tail p` prints the last lines of a readable file, one printed line each, or, through the trap at :136-137, the not-found error naming `p`; it never changes the file system |
| Shell.LsCommand | shell_emulator.py:142-148 | `ls` prints the sorted directory names, one line each followed by `/`, then the sorted file names, one line each, and changes nothing; with no argument it lists the cursor, which is the same as listing `.` |
| Shell.PromptAfterCd | shell_emulator.py:139-140 | after a successful `cd p` the prompt shows the user and the normalised `p` |
| Shell.RunAppend | shell_emulator.py:89-90 | running two batches of lines one after the other is the same as running them together |
| Shell.ExitStops | shell_emulator.py:126-127 | `exit` logs itself and stops the session, saving that log |
| Shell.ExitWritesEveryLine | shell_emulator.py:92-98 | a session that ends with `exit` saves one log record per line, `exit` included, in the order issued |
| Shell.ScriptNeverCrashes | shell_emulator.py:86-90 | a startup script never hits the whitespace-only crash, because its lines are stripped first |
| Examples.OpenArchive | test_shell_emulator.py:14-18 | the test archive opens to three keys, each its member name after `/` |
| Examples.ListRoot | test_shell_emulator.py:28-31 | listing `/` gives exactly the directory `dir1` and the file `file1.txt` |
| Examples.ListDir1 | test_shell_emulator.py:33-36 | listing `/dir1` gives exactly the directory `subdir` and the file `file2.txt` |
| Examples.CdDir1 | test_shell_emulator.py:38-43 | `cd dir1` moves to `/dir1`, where `.` lists `subdir` and `file2.txt` |
| Examples.CdNonexistent | test_shell_emulator.py:45-47 | `cd nonexistent` fails with the error naming the argument |
| Examples.CdPartialName | shell_emulator.py:44 | `cd fil` succeeds because `/fil` begins the key `/file1.txt` |
| Examples.CdIntoFile | shell_emulator.py:44 | `cd file1.txt` succeeds, entering a file |
| Examples.ExplicitDirListedTwice | shell_emulator.py:24 | a directory member with a file inside it is listed both as a directory and as a file |
| Examples.MoveDoesNotCascade | shell_emulator.py:57-63 | renaming a directory key leaves the file inside it under its old path |
| Examples.TailExample | test_shell_emulator.py:73-84 | `tail file.txt` on the twenty-line file prints `Line 11` to `Line 20` and changes only the log |
| Examples.ShownLines | test_shell_emulator.py:82-84 | the printed lines begin with `Line 11`, end with `Line 20` and do not include `Line 10` |
| Examples.TailMissingExample | test_shell_emulator.py:86-95 | `tail nonexistent.txt` prints the not-found error |
| Examples.MvExample | test_shell_emulator.py:119-123 | `mv file.txt file_renamed.txt` renames the key |
| Examples.RenamedListing | test_shell_emulator.py:121-123 | after the rename the root lists `file_renamed.txt` and not `file.txt` |
| Examples.MvMissingExample | test_shell_emulator.py:125-134 | `mv nonexistent.txt file.txt` prints the not-found error naming the source |
| Examples.LsExample | test_shell_emulator.py:136-145 | `ls` at the root prints `dir/` then `file.txt` |
| Examples.LsSubdirExample | test_shell_emulator.py:147-157 | after `cd dir`, `ls` prints `subfile.txt` |
| Examples.CdSequenceExample | test_shell_emulator.py:159-163 | `cd /` keeps the cursor at `/`, then `cd dir` moves it to `/dir` |
| Examples.CdMissingExample | test_shell_emulator.py:165-174 | `cd nonexistent` prints the not-found error |
| Examples.FirstPrompt | shell_emulator.py:139-140 | a session just opened on an archive prompts with the user at `/` |
| Examples.ExitExample | test_shell_emulator.py:176-178 | `exit` stops the session |
| Examples.ExitSavesLogExample | test_shell_emulator.py:180-192 | `ls` then `exit` saves a log of both lines, in order |
| Examples.DateExample | shell_emulator.py:132-133 | `date` prints the date notice and the session goes on |

## Left out

- Reading the zip archive and decoding UTF-8 are left out. The archive is a sequence of members, each a name and its text; a directory member is one whose name ends with `/`, which is what `ZipInfo.is_dir()` tests.
- Reading the configuration with `configparser` is left out: the user name and the archive are parameters of `Shell.Start`.
- The startup script's file is left out. The existence check and the file reading are I/O, so `Shell.RunScript` takes the script's lines.
- Writing the XML log in `save_log` is left out. `Exited` carries the log that would be written.
- `show_date` and the timestamps of log records read the clock. `date` prints a `Date` notice, and a log record holds the user and the command only.
- The interactive loop `run` (`input`, `EOFError`, `KeyboardInterrupt`) and the `__main__` block are I/O. `Shell.Run` models feeding lines to `execute_command` one by one.
- `close` releases the zip file handle, which the model does not have.
- The `.replace('\\', '/')` after `normpath` (shell_emulator.py:68) is left out, because the model assumes POSIX paths. A backslash is an ordinary character in the model, so the model differs from the program on any path that contains one. It also differs on later commands whose paths hold no backslash, because the program keeps the replaced text as the cursor (shell_emulator.py:45) or as a renamed key (shell_emulator.py:61): `mv file.txt a\b` stores the key `/a/b` in the program and `/a\b` in the model, and, when some key lies below `/dir1/`, `cd dir1\` leaves the program's cursor at `/dir1/`.
- Vfs.Valid: a canonical cursor is an invariant of the model only. A cursor reached through a backslash in the program need not be canonical, so `Vfs.CdThenListDot`, `Vfs.CdToCwd`, `Shell.LsCommand` and `Shell.RunKeepsValid`, which rely on `Valid`, hold for the program only on sessions whose paths contain no backslash.
- The printed texts are a `Notice` datatype. The Russian wording of the messages and of Python's exception text is not modelled.
- Ordering.SortSet: Python compares strings by code point, and Dafny's `char` ranges over Unicode scalar values. These agree for every string the archive can hold.
