# otw-natas harness, modelled in Dafny

`otw-natas` solves the levels of the OverTheWire *Natas* wargame from an
interactive shell. This project models three parts of the harness and proves
properties about them:

- **Registry** (lib/natas.rb):
  - the `Natas` registry: the level objects, sorted by index, and the cursor `level`;
  - the unlock engine `Natas#exec`, with each level's `exec` passed in as a parameter;
  - `to_yaml`, which writes the passwords to the configuration file;
  - the `login` and `password` slots set by `NatasLevelBase#initialize`, and the built-in password of level 0.
- **Level11** (lib/natas.rb): the two string routines of level 11, `xor_encrypt` and the key-pattern search in its `exec`.
- **Ansi** (lib/console.rb): the `Console` style builder, i.e. `method_missing` over the `STYLES` and `COLORS` tables and its SGR buffer.
- **Repl** (lib/shell.rb):
  - `Shell#initialize`: the command table sorted by name, and the configuration file loaded into the levels;
  - the read-dispatch loop of `Shell#run`;
  - the commands `quit`, `help`, `list`, `execute`, `next` and `save`.
- **Supporting modules:**
  - `Text`: the Ruby string operations the shell uses (`strip`, `split(/\s+/)`, `downcase`, `to_i`, `to_s`, `join`);
  - `Sorting`: `sort!` with a comparison block, modelled as an insertion sort;
  - `Wrappers`: `Option` and `Result`.

## How it is modelled

**Mutable objects become classes.**
- `Registry.Level` holds an index, a login and a mutable password.
- `Registry.Natas` holds the sorted `levels` and the cursor.
- `Ansi.Console` holds the code buffer `sgr`.
- `Repl.Shell` holds:
  - the console, the registry and the command table;
  - the configuration file's content;
  - the log of lines passed to `puts`;
  - whether the program has exited.

**Each class is tied to a value-level function.**
- `Natas#exec` is specified by `Registry.Run`, which maps the level entries and the cursor to a result and the new entries.
- One pass of the shell loop is specified by `Repl.Step`, which maps one input line to a new `Repl.State` (cursor, entries, file, output, exited).
- Each method is proved to have exactly the effect its function describes.
- The properties of the shell are then proved as lemmas about `Step`, `Steps` and `Run`.

**Outside effects become parameters:**
- **Level exploits:** what each level's `exec` does over HTTP is a function parameter `exploit`. Given a level's index and password, it returns a value or raises. A session takes one such function per input line (`exploits[i]` for line `i`), so a level can time out on one line and succeed when retried on the next, and the remote pages may change between commands.
- **Input lines:** the lines Readline would return are a sequence, and the end of that sequence is the end of input.
- **Configuration file:** its content is an `Option` of a map from level index to password.
- **Class discovery:** the subclasses found through `ObjectSpace` are given as a list, so the proofs hold for every discovery order.

**Literal details kept from the source:**
- `Console::CSI` is written `"\e\x1b["`. Both escapes denote ESC, so each styled string begins with ESC ESC `[`. The model keeps this exactly.
- `Natas#exec`, `list` and `to_yaml` do not assume that level indices are distinct:
  - `detect` takes the first level with an index;
  - the map `to_yaml` builds keeps the last one.
- The save-then-load round trip (`Registry.DumpLoaded`, `Repl.SaveRestores`) is proved for distinct indices.

## Model

| member | source | states |
|---|---|---|
| `Registry.Level.constructor` | lib/natas.rb:57-62 | the login is `natas` followed by the level number; the password is nil, except for level 0 (`NatasLevel0#initialize`), whose password is `natas0` |
| `Registry.Instantiate` | lib/natas.rb:19 | one fresh level object per discovered class, in discovery order, each in its initial state, no object twice |
| `Registry.SortLevels` | lib/natas.rb:20 | the levels come out sorted by index, as a permutation of the discovered objects, with the same multiset of indices |
| `Registry.Natas.constructor` | lib/natas.rb:15-21 | the registry's levels are fresh objects in their initial state, sorted by index, one per discovered class with that class's index, and the cursor is nil |
| `Registry.Find` | lib/natas.rb:24 | `detect` returns the position of the first level with the index, or none when no level has it |
| `Registry.FindIndexes` | lib/natas.rb:24 | `detect` fails exactly when the index is not among the levels' indices |
| `Registry.Run` | lib/natas.rb:23-34 | the two checks in source order: "not implemented" when no level is at the cursor, then "has no password"; otherwise an error the level raises; success exactly when the selected level ran and returned; only the first level at cursor + 1 can change, and its password becomes the returned value |
| `Registry.RunAttempted` | lib/natas.rb:29-33 | once the selected level has run, the engine's result is that level's raise, or nil when no level follows, or the returned password written into the next level |
| `Registry.NoPasswordNoAttempt` | lib/natas.rb:27-29 | a level without a password is never run: the result does not depend on the exploit |
| `Registry.Natas.Exec` | lib/natas.rb:23-34 | the method's result and the levels afterwards are exactly those `Run` gives for the levels before and the cursor |
| `Registry.SetPassword` | lib/natas.rb:33 | assigning one level's password changes that entry and no other level |
| `Registry.Dump` | lib/natas.rb:36-42 | the saved map has exactly the levels' indices as keys, and each maps to the password of the last level with that index |
| `Registry.DumpSnoc` | lib/natas.rb:38-40 | one more iteration of the `to_yaml` loop adds that level's index and password to the map |
| `Registry.Natas.ToYaml` | lib/natas.rb:36-42 | the loop builds exactly the map `Dump` describes for the current levels |
| `Registry.Loaded` | lib/shell.rb:30-32 | loading keeps every level's index; each password becomes `config.fetch(index, nil)` |
| `Registry.DumpLoaded` | lib/shell.rb:27-32 | loading what `to_yaml` saved restores every password, whatever the passwords were before, when no two levels share an index |
| `Registry.LoadedIgnoresUnknown` | lib/shell.rb:31 | a saved entry whose index matches no level has no effect on loading |
| `Level11.Xored` | lib/natas.rb:339-345 | byte i of the output is byte i of the data xor byte `i % key.length` of the key, and the output's length is the data's length |
| `Level11.XorEncrypt` | lib/natas.rb:339-345 | the loop computes `Xored`; an empty key with non-empty data fails with the `ZeroDivisionError` message, and nothing else fails |
| `Level11.XoredTwice` | lib/natas.rb:339-345 | encrypting twice with the same key gives the data back |
| `Level11.XoredRecoversKey` | lib/natas.rb:356-359 | xoring ciphertext with plaintext yields the repeating key stream, which is how `exec` recovers the key |
| `Level11.RangeSlice` | lib/natas.rb:365 | Ruby's `str[a..b]` for `a >= 0`: nil exactly when `a` is past the end; otherwise a slice starting at `a`, whose end `b` counts from the end of the string when negative; empty when that end is below `a`, cut at the end of the string, and otherwise `b - a + 1` long for the adjusted `b` |
| `Level11.BreakTest` | lib/natas.rb:365 | the loop's break test at step i holds exactly when the prefix of length i + 1 is repeated right after itself |
| `Level11.KeyPattern` | lib/natas.rb:362-366 | the search as written returns a prefix of the key: the shortest one repeated right after itself, or the whole key when none is; non-empty for a non-empty key |
| `Level11.PatternNotPeriod` | lib/natas.rb:362-366 | on the key `aabaab` the search returns `a`, which is not a period of the key (the period is `aab`), and xoring any data of three or more bytes with `a` gives a different result from xoring it with the key |
| `Level11.KeyPeriod` | lib/natas.rb:362-366 | the corrected search returns the shortest prefix whose repetition gives the whole key |
| `Ansi.StyleNamed` | lib/console.rb:9-19 | the `STYLES` lookup finds exactly the nine style names |
| `Ansi.ColorNamed` | lib/console.rb:21-30 | the `COLORS` lookup finds exactly the eight colour names |
| `Ansi.CodeFor` | lib/console.rb:37-44 | the code a method name buffers is always a valid SGR code: a style, a foreground colour (30-37) or a background colour (40-47) |
| `Ansi.StyleNameCode` | lib/console.rb:37-38 | a style name buffers its `STYLES` value |
| `Ansi.ColorNameCode` | lib/console.rb:39-40 | a colour name buffers its `COLORS` value plus `COLOR_FG` |
| `Ansi.BackgroundNameCode` | lib/console.rb:41-43 | `on_` followed by a colour name buffers the colour's value plus `COLOR_BG` |
| `Ansi.OtherNameNoCode` | lib/console.rb:36-44 | any other name, `on_` with an unknown colour included, buffers nothing |
| `Ansi.Codes` | lib/console.rb:36-46 | a chain of calls buffers at most one code per call, every one valid |
| `Ansi.DecodeRender` | lib/console.rb:47-52 | a styled string can be parsed back into exactly the buffered codes and the joined text |
| `Ansi.DecodePlain` | lib/console.rb:47-50 | with an empty buffer the text comes out unchanged, and reads back as plain text unless it begins with ESC |
| `Ansi.ParamsParse` | lib/console.rb:48 | `@sgr.join(";")` splits at `;` back into numerals that read as the codes |
| `Ansi.Compose` | lib/console.rb:47-50 | the string built is the SGR introducer with the codes, the text and the reset sequence, or just the text when the buffer is empty |
| `Ansi.Console.constructor` | lib/console.rb:32-34 | a new console has an empty buffer |
| `Ansi.Console.MethodMissing` | lib/console.rb:36-53 | a call without arguments returns the console and appends the name's code to the buffer; a call with arguments returns their concatenation styled by the whole buffer in call order, and empties the buffer |
| `Text.WordsUnwords` | lib/shell.rb:48 | `split(/\s+/)` of non-empty words joined by single spaces gives those words back |
| `Text.IntToStringToI` | lib/shell.rb:166 | `to_i` reads back any integer written with `to_s` |
| `Text.SplitJoin` | lib/console.rb:48 | splitting a join at its separator gives the parts back when no part contains the separator |
| `Repl.AnswersUnique` | lib/shell.rb:50 | a word answers to a command (its name or an alias) exactly when the name-and-alias table maps it to that command |
| `Repl.Lookup` | lib/shell.rb:50 | `detect` returns a command of the table that answers to the word, and fails exactly when none does |
| `Repl.LookupAll` | lib/shell.rb:50 | in any order, a table holding every command finds the command the word stands for |
| `Repl.NameOrder` | lib/shell.rb:25 | comparing names orders any list of commands totally, with no ties between two commands |
| `Repl.OrderedSorted` | lib/shell.rb:25 | the table `execute, help, list, next, quit, save` is sorted by name |
| `Repl.SortedIsOrdered` | lib/shell.rb:25 | every arrangement of the six commands that is sorted by name is that table |
| `Repl.SortCommands` | lib/shell.rb:23-25 | sorting the discovered commands by name gives that table, for every discovery order |
| `Repl.OpenRegistry` | lib/shell.rb:22-32 | a new registry; without a file its levels are in their initial state; with a file each level's password is the file's entry for its index, or nil |
| `Repl.LoadConfig` | lib/shell.rb:30-32 | the loop leaves exactly the passwords `Loaded` describes |
| `Repl.Shell.constructor` | lib/shell.rb:20-33 | a new shell: empty output, not exited, the sorted command table, and the registry and loading of `OpenRegistry` |
| `Repl.StepUnknown` | lib/shell.rb:45-53 | a non-blank line whose first word, downcased, names no command prints "Unrecognized command" and the word, and changes nothing else |
| `Repl.StepKnown` | lib/shell.rb:45-55 | a non-blank line runs the command its first downcased word names, with the remaining words as arguments |
| `Repl.BlankLine` | lib/shell.rb:45-46 | a line of whitespace only changes nothing |
| `Repl.StepCommand` | lib/shell.rb:45-55 | a line holding a command's name and then its arguments, separated by single spaces, runs that command with exactly those arguments |
| `Repl.StepInvariant` | lib/shell.rb:43-55 | one line keeps the cursor within 0..MAXLEVEL or nil, keeps the levels and their indices, and only appends to the output |
| `Repl.PerformKeeps` | lib/shell.rb:55 | each command keeps the cursor in range and the levels' indices, and only appends to the output |
| `Repl.StepsInvariant` | lib/shell.rb:42-56 | the loop reaches exit, at the latest when the input ends, and keeps the invariant of each step |
| `Repl.Shell.Handle` | lib/shell.rb:43-55 | one pass of the loop: end of input exits; otherwise the shell's new state is exactly `Step` of its old state |
| `Repl.Shell.Run` | lib/shell.rb:35-57 | the banner, the hint, then one `Handle` per input line, line `i` under its own exploit `exploits[i]`, until exit; the final state is `Steps` from the greeted state |
| `Repl.Shell.Quit` | lib/shell.rb:44 | at the end of the input the shell exits and nothing else changes |
| `Repl.Shell.Greet` | lib/shell.rb:38-40 | prints the banner in bold cyan and the hint in yellow, and changes nothing else |
| `Repl.Shell.Reject` | lib/shell.rb:50-53 | prints "Unrecognized command " in red and then the word in bold magenta; nothing else changes |
| `Repl.Shell.Dispatch` | lib/shell.rb:55 | running the looked-up command has exactly the effect `Perform` gives it |
| `Repl.HelpText` | lib/shell.rb:113-125 | the `help` loop yields one line per command, in table order, each as `HelpLine` describes |
| `Repl.HelpRow` | lib/shell.rb:114-124 | the first alias in bold cyan, the name and arguments in magenta padded to 30 characters, the description in yellow |
| `Repl.PadRight` | lib/shell.rb:118 | `%-30s`: the string followed by spaces up to 30 characters, never cut |
| `Repl.Shell.ShowHelp` | lib/shell.rb:112-126 | `help` appends its lines to the output and does not touch the levels, the cursor or the file |
| `Repl.ListHighlight` | lib/shell.rb:147-151 | the line of the level under the cursor reads back as its text in red, bold, on white; every other line is the plain text |
| `Repl.ListingText` | lib/shell.rb:138-152 | the `list` loop yields one line per level, in registry order, highlighted as `ListLine` says |
| `Repl.ListRow` | lib/shell.rb:139-151 | the line `natas<n>: <password>`, painted red, bold, on white exactly when the cursor is on the level |
| `Repl.Shell.ShowList` | lib/shell.rb:137-153 | `list` appends its lines for the current levels and cursor, and changes nothing else |
| `Repl.ExecuteSelects` | lib/shell.rb:164-182 | `execute <n>`, for n in 0..MAXLEVEL, moves the cursor to n and runs the engine there |
| `Repl.ExecuteOutOfRange` | lib/shell.rb:166-171 | `execute <n>` with n out of range only prints the range error in red |
| `Repl.Shell.ExecuteLevel` | lib/shell.rb:164-182 | the shell's new state is exactly `ExecuteState`: with no argument the cursor defaults to 0 when nil, and an engine error is printed in red |
| `Repl.NextAtMaximum` | lib/shell.rb:194-197 | `next` at MAXLEVEL only prints "Maximum level reached" |
| `Repl.NextFromStart` | lib/shell.rb:198 | `next` with no level selected runs level 0 |
| `Repl.Shell.NextLevel` | lib/shell.rb:193-205 | the shell's new state is exactly `NextState`: the cursor advances by one, or goes to 0 from nil, and the engine runs there |
| `Repl.Shell.ExecLevel` | lib/shell.rb:176-181 | runs the engine at the cursor and prints a raised error in red |
| `Repl.Shell.SaveLevels` | lib/shell.rb:216-219 | the file becomes `to_yaml` of the levels and the yellow confirmation naming the file is printed |
| `Repl.SaveRestores` | lib/shell.rb:216-219 | after `save`, loading the file at the next start restores every password, when no two levels share an index |
| `Repl.Paint` | lib/console.rb:36-53 | a chain `console.a.b(text)` returns the text styled by the codes of the whole chain and leaves the buffer empty |
| `Repl.RedBoldOnWhiteCodes` | lib/shell.rb:148 | the chain `red.bold.on_white` buffers the codes 31, 1 and 47 |

## Left out

- HTTP and page scraping: every level's `exec` is an uninterpreted `exploit` parameter. The `get`/`post` helpers, the logging helpers `log`/`found`/`not_found`, and the level classes' own exploits are not part of this model.
- Level 11's `exec` beyond the two string routines (reading the cookie, Base64 and URL decoding, JSON generation, re-encrypting): I/O and encoding libraries.
- YAML text: the file is modelled as the map `to_yaml` dumps, not as YAML text, and `YAML.safe_load` as reading that map back.
- Readline, the prompt and `Signal.trap('INT')`: terminal I/O. Each line is given as an input, and the end of the input stands for Readline returning nil.
- `exit`: modelled as the `exited` flag, which ends the loop.
- `ObjectSpace` discovery: the discovered level numbers and command classes are parameters, and every result holds for every discovery order.
- Strings are sequences of characters:
  - `downcase` folds ASCII letters only;
  - whitespace is Ruby's `\s` set (space, tab, LF, VT, FF, CR), and `strip`'s removal of NUL is not modelled;
  - `to_i` skips leading whitespace and reads a sign, digits and single underscores. It does not read the `0d`-style radix prefixes.
- `puts` is modelled as logging each string passed to it. Its newline handling is not modelled, and `help` and `list` collect their lines before they are logged.
- `Level11.XorEncrypt` works on bytes. Characters outside one byte, for which Ruby's `chr` raises, are not modelled.
- `Registry.SortLevels` is a stable insertion sort. Ruby's `sort!` is not stable, so when two level classes share an index the model picks one of the orders Ruby may produce.

## Findings

| source | as written | input that shows it | evidently intended | confidence | as-written member | corrected member |
|---|---|---|---|---|---|---|
| lib/natas.rb:362-366 | the pattern search stops at the first prefix that is repeated once right after itself | the key `aabaab`: the search returns `a`, and encrypting with `a` differs from encrypting with the key | the shortest prefix which, repeated, gives the whole key (`aab`) | not executed | `Level11.PatternNotPeriod` | `Level11.KeyPeriod` |
