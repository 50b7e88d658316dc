# Header descriptors of gitsplode, modelled in Dafny

gitsplode generates Rust bindings to a vendored copy of git. Each header it binds is described by a TOML template: the C declarations (`header`) plus an optional `whitelist` or `blacklist` of items. An item is a function, a type or an `item` (a variable or any other item). The build script of `git-sys` does five things with these templates:
- it selects the `.toml` files of its source directory;
- it turns each into a header named after the file stem, refusing a template that has both lists;
- it configures one bindgen builder per header;
- it refuses the whole build if any template fails;
- it writes a root module that includes every generated file.

The `git-sys-header` crate repeats the descriptor logic as a library. `Header::new` validates a descriptor and prefixes its text, `Header::into_builder` configures a builder, and it has a four-variant error type.

The model keeps this logic and abstracts what lies outside it:
- The bindgen builder is the list of calls it receives (module `Bindgen`). "What the builder was told" is therefore a sequence that contracts can describe exactly.
- Reading files (`read`), deserialising TOML (`parse`) and the directory listing are inputs to the operations.
- A path is seen through its final component. `Paths` reproduces how Rust's standard library cuts a file name into a stem and an extension. This includes the special cases `..` and a name whose only dot comes first.

Modules, one per source file plus four support modules:
- `Wrappers`: Option and Result.
- `Paths`: file stem, extension and UTF-8 conversion.
- `Bindgen`: the builder as recorded calls.
- `Lines`: newline-terminated lines, joined into a text and split back.
- `Items` (`item.rs`): the three item kinds.
- `Errors` (`error.rs`): the error enum and its conversions.
- `Filters` (`filter.rs`): the dispatch table, one filter's call, and the calls a filter list produces.
- `SysHeader` (`git-sys-header/src/lib.rs`): `Header::new` and `Header::into_builder`.
- `BuildScript` (`git-sys/build.rs`): template selection, conversion, all-or-nothing collection, builder configuration and the root module.

The source's loops are methods with loop invariants, proved against specification functions: `into_builder`, `Header::builder`, the collection and `main`'s loop over headers. Lemmas state what those functions mean. Three behaviours of the code are worth knowing:
- Each nested module of the root module is called `version`, whatever the header is called (see Findings).
- Headers keep listing order and are not sorted.
- A filter list is a list, not a map, so duplicate names are kept, and each is applied once in list order.

## Model

| member | source | states |
|---|---|---|
| `Errors.FromToml` | git-sys-header/src/error.rs:13-17 | a TOML failure always becomes `Deserialize` carrying that failure |
| `Errors.FromIo` | git-sys-header/src/error.rs:19-23 | an I/O failure always becomes `Read` carrying that failure |
| `Errors.ConversionsInjectiveAndDisjoint` | git-sys-header/src/error.rs:2-11 | the conversions are injective and never overlap, and neither yields `DualFilters` or `Filename`; those two carry no payload and are only built explicitly |
| `Filters.Dispatch` | git-sys-header/src/filter.rs:22-33 | the builder method chosen for (filter type, item kind) keeps both: it is a whitelist method exactly for `Whitelist` and targets exactly the filter's item kind, so all six pairs map to distinct methods; the name plays no part |
| `Filters.DispatchOnto` | git-sys-header/src/filter.rs:22-33 | each of the six builder methods is the dispatch of its own pair, so the table is total and one to one |
| `Filters.Build` | git-sys-header/src/filter.rs:21-36 | `build` adds exactly one call and keeps the earlier calls; the call has the filter's type and item kind and passes the filter's name unchanged |
| `Filters.SelectedCallsMeaning` | git-sys-header/src/lib.rs:42-51 | the filter calls after the header contents are one per filter of the chosen list, in list order, each with that filter's kind and name; the whitelist is chosen whenever it is present, the blacklist only without a whitelist; with neither list there are no calls |
| `Filters.RequestsOfList` | git-sys-header/src/lib.rs:47-51 | a call is among those of a filter list exactly when some filter of the list dispatches to it |
| `Filters.ReorderingKeepsRequests` | git-sys-header/src/lib.rs:47-51 | rearranging a filter list does not change the set of calls requested |
| `SysHeader.New` | git-sys-header/src/lib.rs:21-35 | a read failure gives `Read` and a TOML failure gives `Deserialize`, both before the filter check; both lists present gives `DualFilters`, exactly in that case; success exactly when neither happened; the text becomes prefix, newline, original text; the filter lists are unchanged; `Filename` is never returned |
| `SysHeader.IntoBuilder` | git-sys-header/src/lib.rs:37-54 | a fresh builder receives `header_contents(name, header)` first, with the caller's name verbatim, then exactly the calls of the selected filter list |
| `Paths.IntoString` | git-sys/build.rs:249-252 | conversion to text succeeds exactly when every unit is a character, and then gives back the same string; otherwise the original string is returned |
| `Paths.TextRoundTrip` | git-sys/build.rs:249-252 | text turned into a platform string converts back to the same text |
| `Paths.FileStem` | git-sys/build.rs:246-248 | a path has a stem exactly when it has a file name |
| `Paths.StemExtensionRejoin` | git-sys/build.rs:109-111 | with an extension, the file name is a non-empty stem, a dot and a dot-free extension; without one, the stem is the whole name |
| `Paths.SplitOfJoined` | git-sys/build.rs:109-111 | a non-empty stem, a dot and a dot-free extension split back into that stem and extension, unless the name is `..` |
| `BuildScript.IsTomlExactly` | git-sys/build.rs:107-117 | an entry is selected exactly when it is `Ok` and its file name is `.toml` after at least one more unit; an `Err` entry, another extension, no extension and the bare name `.toml` are not selected |
| `BuildScript.FileStem` | git-sys/build.rs:245-253 | without a file name the result is the no-stem error; otherwise success exactly when the stem is valid text, and the name then equals the stem; a stem that is not valid text gives the invalid-UTF-8 error carrying it |
| `BuildScript.TomlTemplateName` | git-sys/build.rs:215 | for any non-empty stem, `<stem>.toml` is selected and named `<stem>` (so `foo.toml` gives `foo`) |
| `BuildScript.Converted` | git-sys/build.rs:201-218 | a header is produced only from a template that reads, parses and has at most one filter list; its fields are the parsed ones and its name is the path's stem; both lists give the dual-filter error for that path, whatever the stem, because the check comes first; conversely a template that reads, parses and has at most one list becomes the parsed header named after its stem, or gets the stem's error; an `Err` entry or a failed read gives the I/O error, and a failed parse gives the TOML error |
| `BuildScript.TryFrom` | git-sys/build.rs:201-218 | read, parse, refuse both lists, then overwrite the name with the stem: its result is the one `Converted` describes |
| `BuildScript.DirEntryToHeader` | git-sys/build.rs:120-122 | an `Err` listing entry becomes an I/O error; an `Ok` entry goes through `TryFrom` |
| `BuildScript.SelectTomlMembers` | git-sys/build.rs:72-73 | the selected entries are exactly the listing's `.toml` entries |
| `BuildScript.SelectTomlAppend` | git-sys/build.rs:72-73 | selection keeps listing order: selecting from a concatenation concatenates the selections |
| `BuildScript.CollectHeaders` | git-sys/build.rs:72-75 | a listing error aborts; on success there is one header per selected entry, converted from it, in listing order; on failure the error is that of the first selected entry that fails, and no header is returned |
| `BuildScript.Apply` | git-sys/build.rs:161-178 | the build script's own copy of the dispatch table gives the same call as `Filters.Build` for all six pairs |
| `BuildScript.BuilderFor` | git-sys/build.rs:223-241 | exactly one `header_contents` call, with file `<name>.h` and content prefix, newline, header text, followed by exactly the calls of the whitelist, or of the blacklist when there is no whitelist, or nothing |
| `BuildScript.GenerateAll` | git-sys/build.rs:78-98 | one builder per header, in header order; each gets that header's configuration under `HEADER_PREFIX` and then the include-path argument; the root module text is the one `RootModuleLines` describes |
| `Lines.SplitJoinLines` | git-sys/build.rs:93-97 | splitting lines written with newline terminators gives the same lines back, for lines without newlines |
| `BuildScript.RootModuleLines` | git-sys/build.rs:93-97 | for header names without newlines, the root module has exactly two lines per header, in header order: `pub use <name>::*;`, then a module literally named `version` that includes `<name>.rs` from `OUT_DIR` |
| `BuildScript.RootItemsAsWritten` | git-sys/build.rs:93-97 | as written, every re-export resolves exactly when all headers are named `version`, and no module is declared twice exactly when there is at most one header |
| `BuildScript.CorrectedRootItemsResolve` | git-sys/build.rs:93-97 | with the module named after the header, every re-export always resolves, each module includes its own generated file, and no module is declared twice exactly when the header names are distinct |

## Findings

| source | as written | input that shows it | evidently intended | confidence | as-written member | corrected member |
|---|---|---|---|---|---|---|
| git-sys/build.rs:93-97 | each header's generated file is included in a module named `version`, while the line before re-exports `<name>::*` | templates `alpha.toml` and `beta.toml`: `alpha` and `beta` are re-exported but never declared, and `version` is declared twice | `mod <name> { include!(… "/<name>.rs") }` | medium (it works for a single template named `version`), not executed | `BuildScript.RootItemsAsWritten` | `BuildScript.CorrectedRootItemsResolve` |

`BuildScript.GenerateAll` keeps the text as written, because it models the loop of `main`. `BuildScript.CorrectedRootItems` is the list of items that a corrected loop would emit.

## Left out

- The external build steps of `main` are not modelled: submodule update, `make configure`, `./configure` with its cache file, parallel `make` with the host CPU count, copying the three archives, and the `cargo:` link directives. They are processes and file-system effects.
- Writing the generated bindings and the root module is not modelled. Neither is `Builder::generate` or its panic on failure. These are file I/O and foreign code generation; only the builder's configuration and the root-module text are modelled.
- The `OUT_DIR` environment read and the `lib` directory are left out. The include path is a string parameter.
- TOML deserialisation is an input. This covers serde's `untagged`/`rename_all` handling of item names and the skipped `name` field, which the build script overwrites before use. `parse` maps text to a parsed header or a TOML error.
- Reading a file is an input (`read`, or the reader's outcome for `Header::new`). The order of `read_dir` is also an input: the listing is a given sequence.
- `Paths.IntoString`, `BuildScript.FileStem` and `BuildScript.IsToml`: platform strings are taken as already decoded. Every valid UTF-8 run of a file name is assumed to appear as `Text` units, and `Raw` holds only bytes that are not part of valid UTF-8. The type does not enforce this. On a value that breaks it, such as `[Raw(0x61)]` or a `Raw(0x2E)` dot, these members disagree with the standard library, which decodes the bytes first.
- Paths are modelled only through their final component. An empty final component and `..` are representable, although `Path::file_name` never returns them. How `Path::file_name` handles roots, `.` and `..` components comes from the standard library and is not modelled.
- Error messages of the build script (`anyhow!` text) are not modelled. Each error case is a variant carrying the same data (the path, or the string that is not valid text).
- `git/src/lib.rs` (the version accessor and repository initialisation) and `gitsplode/src/main.rs` are not part of this model. They are foreign calls, unsafe global state and a thin command-line program.
