/**
 * The header-descriptor part of `git-sys/build.rs`: selecting the `.toml`
 * templates of the source directory, turning each into a header (all or
 * nothing), configuring one builder per header, and assembling the root
 * module that includes the generated bindings.
 */
module BuildScript {
  import opened Wrappers
  import opened Errors
  import Paths
  import opened Bindgen
  import opened Items
  import opened Filters
  import opened Lines

  /** The preprocessor prefix every header is compiled under. */
  const HEADER_PREFIX: string := "\n#define NO_OPENSSL\n#define NO_CURL\n"

  /**
   * A header template. `name` is not part of the TOML text: whatever the
   * deserialiser leaves there is overwritten with the file stem.
   */
  datatype Header = Header(name: string, header: string, whitelist: Option<seq<Filter>>, blacklist: Option<seq<Filter>>)

  predicate HasDualFilters(h: Header) {
    h.whitelist.Some? && h.blacklist.Some?
  }

  /** An entry of a directory listing. */
  datatype DirEntry = DirEntry(path: Paths.Path)

  /** The ways the build script refuses a template (its `anyhow::Error`s). */
  datatype BuildError =
    | Io(ioError: IoError)
    | Toml(tomlError: TomlError)
    | BothFilters(path: Paths.Path)
    | NoStem
    | InvalidUtf8(bad: Paths.OsStr)

  // ---------------------------------------------------------------------
  // Selecting templates

  /** `is_toml`: a readable entry whose extension is exactly `toml`. */
  function IsToml(entry: Result<DirEntry, IoError>): bool {
    if entry.Ok? then
      var ext := Paths.Extension(entry.value.path);
      ext.Some? && ext.value == Paths.FromStr("toml")
    else
      false
  }

  /** A file name made of at least one unit followed by `.toml`. */
  predicate EndsWithToml(f: Paths.OsStr) {
    |f| > 5 && f[|f| - 5..] == Paths.FromStr(".toml")
  }

  /**
   * An entry is selected exactly when it was read without error and its file
   * name is `.toml` preceded by a non-empty stem; a listing error, a name
   * without that ending, and the bare name `.toml` are all skipped.
   */
  lemma IsTomlExactly(entry: Result<DirEntry, IoError>)
    ensures IsToml(entry) <==>
      entry.Ok? && entry.value.path.fileName.Some? && EndsWithToml(entry.value.path.fileName.value)
  {
    if entry.Ok? && entry.value.path.fileName.Some? {
      var p := entry.value.path;
      var f := p.fileName.value;
      var toml := Paths.FromStr("toml");
      assert Paths.FromStr(".toml") == [Paths.Dot] + toml;
      if IsToml(entry) {
        Paths.StemExtensionRejoin(p);
        var stem := Paths.FileStem(p).value;
        assert f == stem + [Paths.Dot] + toml;
        assert f[|f| - 5..] == [Paths.Dot] + toml;
      }
      if EndsWithToml(f) {
        var stem := f[..|f| - 5];
        assert f == stem + [Paths.Dot] + toml;
        Paths.SplitOfJoined(stem, toml);
      }
    }
  }

  /** `file_stem`: the stem of the path as text; it fails without a stem or when the stem is not UTF-8. */
  function FileStem(path: Paths.Path): (r: Result<string, BuildError>)
    ensures path.fileName.None? ==> r == Err(NoStem)
    ensures path.fileName.Some? ==> (r.Ok? <==> Paths.IsText(Paths.FileStem(path).value))
    ensures r.Ok? ==> Paths.FileStem(path) == Some(Paths.FromStr(r.value))
    ensures r.Err? && path.fileName.Some? ==> r == Err(InvalidUtf8(Paths.FileStem(path).value))
  {
    match Paths.FileStem(path)
    case None => Err(NoStem)
    case Some(stem) =>
      match Paths.IntoString(stem)
      case Ok(name) => Ok(name)
      case Err(bad) => Err(InvalidUtf8(bad))
  }

  /** A template file named `<stem>.toml`, for any non-empty stem (`foo.toml` gives `foo`), is selected and named after its stem. */
  lemma TomlTemplateName(stem: string)
    requires stem != ""
    ensures var entry := DirEntry(Paths.Path(Some(Paths.FromStr(stem + ".toml"))));
      IsToml(Ok(entry)) && FileStem(entry.path) == Ok(stem)
  {
    var s := Paths.FromStr(stem);
    var toml := Paths.FromStr("toml");
    assert Paths.FromStr(stem + ".toml") == s + [Paths.Dot] + toml;
    Paths.SplitOfJoined(s, toml);
    Paths.TextRoundTrip(stem);
  }

  // ---------------------------------------------------------------------
  // Turning a template into a header

  /**
   * What `dir_entry_to_header` makes of a listing entry, given how files
   * read (`read`) and how TOML text deserialises (`parse`). A header is
   * produced only for an entry whose file reads and parses, has at most one
   * filter list, and has a UTF-8 stem, which becomes its name; both filter
   * lists are refused before the name is looked at. Every other outcome is
   * the error of the first step that fails: the listing entry or the read
   * (`Io`), the parse (`Toml`), or the stem (`FileStem`'s error).
   */
  function Converted(entry: Result<DirEntry, IoError>, read: Paths.Path -> Result<string, IoError>,
                     parse: string -> Result<Header, TomlError>): (r: Result<Header, BuildError>)
    ensures r.Ok? ==>
      entry.Ok? && read(entry.value.path).Ok? && parse(read(entry.value.path).value).Ok? &&
      r.value == parse(read(entry.value.path).value).value.(name := r.value.name) &&
      !HasDualFilters(r.value) &&
      Paths.FileStem(entry.value.path) == Some(Paths.FromStr(r.value.name))
    ensures (entry.Ok? && read(entry.value.path).Ok? && parse(read(entry.value.path).value).Ok? &&
             HasDualFilters(parse(read(entry.value.path).value).value)) ==>
      r == Err(BothFilters(entry.value.path))
    ensures entry.Err? ==> r == Err(Io(entry.error))
    ensures entry.Ok? ==>
      var path := entry.value.path;
      (read(path).Err? ==> r == Err(Io(read(path).error))) &&
      (read(path).Ok? && parse(read(path).value).Err? ==> r == Err(Toml(parse(read(path).value).error))) &&
      (read(path).Ok? && parse(read(path).value).Ok? && !HasDualFilters(parse(read(path).value).value) ==>
        r == if FileStem(path).Ok? then Ok(parse(read(path).value).value.(name := FileStem(path).value))
             else Err(FileStem(path).error))
  {
    match entry
    case Err(e) => Err(Io(e))
    case Ok(e) =>
      match read(e.path)
      case Err(err) => Err(Io(err))
      case Ok(raw) =>
        match parse(raw)
        case Err(err) => Err(Toml(err))
        case Ok(h) =>
          if HasDualFilters(h) then Err(BothFilters(e.path))
          else
            match FileStem(e.path)
            case Err(err) => Err(err)
            case Ok(name) => Ok(h.(name := name))
  }

  /** `Header::try_from`: read, parse, refuse both filter lists, then overwrite the name with the stem. */
  method TryFrom(entry: DirEntry, read: Paths.Path -> Result<string, IoError>,
                 parse: string -> Result<Header, TomlError>) returns (r: Result<Header, BuildError>)
    ensures r == Converted(Ok(entry), read, parse)
  {
    var path := entry.path;
    var raw := read(path);
    if raw.Err? {
      return Err(Io(raw.error));
    }
    var parsed := parse(raw.value);
    if parsed.Err? {
      return Err(Toml(parsed.error));
    }
    var header := parsed.value;
    if header.whitelist.Some? && header.blacklist.Some? {
      return Err(BothFilters(path));
    }
    var stem := FileStem(path);
    if stem.Err? {
      return Err(stem.error);
    }
    header := header.(name := stem.value);
    return Ok(header);
  }

  /** `dir_entry_to_header`: a listing error becomes an I/O error, an entry goes through `TryFrom`. */
  method DirEntryToHeader(entry: Result<DirEntry, IoError>, read: Paths.Path -> Result<string, IoError>,
                          parse: string -> Result<Header, TomlError>) returns (r: Result<Header, BuildError>)
    ensures r == Converted(entry, read, parse)
  {
    if entry.Err? {
      return Err(Io(entry.error));
    }
    r := TryFrom(entry.value, read, parse);
  }

  // ---------------------------------------------------------------------
  // Collecting all templates

  /** The entries `filter(is_toml)` keeps, in listing order. */
  function SelectToml(entries: seq<Result<DirEntry, IoError>>): seq<Result<DirEntry, IoError>>
  {
    if entries == [] then []
    else (if IsToml(entries[0]) then [entries[0]] else []) + SelectToml(entries[1..])
  }

  /** The selection holds exactly the listed entries that are `.toml` files. */
  lemma {:induction false} SelectTomlMembers(entries: seq<Result<DirEntry, IoError>>)
    ensures forall e :: e in SelectToml(entries) <==> e in entries && IsToml(e)
  {
    if entries != [] {
      SelectTomlMembers(entries[1..]);
      assert entries == [entries[0]] + entries[1..];
    }
  }

  /** Selection keeps order: selecting from a concatenation concatenates the selections. */
  lemma {:induction false} SelectTomlAppend(a: seq<Result<DirEntry, IoError>>, b: seq<Result<DirEntry, IoError>>)
    ensures SelectToml(a + b) == SelectToml(a) + SelectToml(b)
  {
    if a == [] {
      assert a + b == b;
    } else {
      var head := if IsToml(a[0]) then [a[0]] else [];
      assert (a + b)[0] == a[0] && (a + b)[1..] == a[1..] + b;
      SelectTomlAppend(a[1..], b);
      Lines.Regroup(head, SelectToml(a[1..]), SelectToml(b), []);
    }
  }

  lemma SelectTomlSnoc(a: seq<Result<DirEntry, IoError>>, e: Result<DirEntry, IoError>)
    ensures SelectToml(a + [e]) == SelectToml(a) + if IsToml(e) then [e] else []
  {
    SelectTomlAppend(a, [e]);
  }

  /**
   * The header collection of `main`: a listing error aborts; otherwise the
   * `.toml` entries are converted in order and the first failure aborts the
   * whole collection, so either every selected entry became a header, one
   * per entry and in listing order, or none is returned.
   */
  method CollectHeaders(listing: Result<seq<Result<DirEntry, IoError>>, IoError>,
                        read: Paths.Path -> Result<string, IoError>,
                        parse: string -> Result<Header, TomlError>) returns (r: Result<seq<Header>, BuildError>)
    ensures listing.Err? ==> r == Err(Io(listing.error))
    ensures listing.Ok? && r.Ok? ==>
      var selected := SelectToml(listing.value);
      |r.value| == |selected| &&
      forall i :: 0 <= i < |selected| ==> Converted(selected[i], read, parse) == Ok(r.value[i])
    ensures listing.Ok? && r.Err? ==>
      var selected := SelectToml(listing.value);
      exists k :: 0 <= k < |selected| && Converted(selected[k], read, parse) == Err(r.error) &&
        forall j :: 0 <= j < k ==> Converted(selected[j], read, parse).Ok?
  {
    if listing.Err? {
      return Err(Io(listing.error));
    }
    var entries := listing.value;
    var headers: seq<Header> := [];
    ghost var selected: seq<Result<DirEntry, IoError>> := [];
    for i := 0 to |entries|
      invariant selected == SelectToml(entries[..i])
      invariant |headers| == |selected|
      invariant forall j :: 0 <= j < |headers| ==> Converted(selected[j], read, parse) == Ok(headers[j])
    {
      assert SelectToml(entries[..i + 1]) == selected + if IsToml(entries[i]) then [entries[i]] else [] by {
        assert entries[..i + 1] == entries[..i] + [entries[i]];
        SelectTomlSnoc(entries[..i], entries[i]);
      }
      if IsToml(entries[i]) {
        var h := DirEntryToHeader(entries[i], read, parse);
        if h.Err? {
          CollectFailure(entries, i, selected, read, parse, h.error);
          return Err(h.error);
        }
        headers := headers + [h.value];
        selected := selected + [entries[i]];
      }
    }
    assert entries[..|entries|] == entries;
    return Ok(headers);
  }

  /** The failing entry of `CollectHeaders` is the first selected entry that fails. */
  lemma CollectFailure(entries: seq<Result<DirEntry, IoError>>, i: nat, before: seq<Result<DirEntry, IoError>>,
                       read: Paths.Path -> Result<string, IoError>, parse: string -> Result<Header, TomlError>,
                       err: BuildError)
    requires i < |entries| && IsToml(entries[i])
    requires before == SelectToml(entries[..i])
    requires forall j :: 0 <= j < |before| ==> Converted(before[j], read, parse).Ok?
    requires Converted(entries[i], read, parse) == Err(err)
    ensures var selected := SelectToml(entries);
      exists k :: 0 <= k < |selected| && Converted(selected[k], read, parse) == Err(err) &&
        forall j :: 0 <= j < k ==> Converted(selected[j], read, parse).Ok?
  {
    assert entries == entries[..i] + [entries[i]] + entries[i + 1..];
    SelectTomlAppend(entries[..i] + [entries[i]], entries[i + 1..]);
    SelectTomlSnoc(entries[..i], entries[i]);
    var selected := SelectToml(entries);
    assert selected == before + [entries[i]] + SelectToml(entries[i + 1..]);
    assert selected[|before|] == entries[i];
    assert forall j :: 0 <= j < |before| ==> selected[j] == before[j];
  }

  // ---------------------------------------------------------------------
  // Configuring the builder of one header

  /** `Filter::apply`, the build script's own copy of the dispatch table; it agrees with `Filter::build`. */
  function Apply(f: Filter, b: Builder, t: FilterType): (r: Builder)
    ensures r == Build(f, b, t)
  {
    var op :=
      match t
      case Whitelist => (
        match f.item
        case Function => WhitelistFunction
        case Type => WhitelistType
        case Item => WhitelistVar)
      case Blacklist => (
        match f.item
        case Function => BlacklistFunction
        case Type => BlacklistType
        case Item => BlacklistItem);
    b.With(op, f.name)
  }

  /**
   * `Header::builder`: one `header_contents` call, for the file `<name>.h`
   * with `prefix`, a newline and the header text, then one call per filter
   * of the whitelist (or, without one, of the blacklist), in list order.
   */
  method BuilderFor(h: Header, prefix: string) returns (b: Builder)
    ensures b.calls == [HeaderContents(h.name + ".h", prefix + "\n" + h.header)] + SelectedCalls(h.whitelist, h.blacklist)
  {
    var filename := h.name + ".h";
    var content := prefix + "\n" + h.header;
    b := Default.WithHeaderContents(filename, content);
    var selection := Selection(h.whitelist, h.blacklist);
    if selection.Some? {
      var (filters, t) := selection.value;
      for i := 0 to |filters|
        invariant b.calls == [HeaderContents(filename, content)] + FilterCalls(filters[..i], t)
      {
        assert FilterCalls(filters[..i + 1], t) == FilterCalls(filters[..i], t) + [Op(Dispatch(t, filters[i].item), filters[i].name)];
        b := Apply(filters[i], b, t);
      }
      assert filters[..|filters|] == filters;
    }
  }

  // ---------------------------------------------------------------------
  // The root module

  /** The text around the generated file's name in a module line of the root module. */
  const INCLUDE_HEAD: string := " { include!(concat!(env!(\"OUT_DIR\"), \"/"
  const INCLUDE_TAIL: string := ".rs\")); }"

  /** One line of the root module: a wildcard re-export, or a module that includes a generated file. */
  datatype RootItem = ReExport(modName: string) | IncludeModule(modName: string, file: string)

  function Render(item: RootItem): string {
    match item
    case ReExport(m) => "pub use " + m + "::*;"
    case IncludeModule(m, f) => "mod " + m + INCLUDE_HEAD + f + INCLUDE_TAIL
  }

  /** The items `main` emits, as written: per header a re-export of `<name>`, then a module always called `version`. */
  function RootItems(names: seq<string>): seq<RootItem> {
    if names == [] then []
    else RootItems(names[..|names| - 1]) + [ReExport(names[|names| - 1]), IncludeModule("version", names[|names| - 1])]
  }

  function RenderAll(items: seq<RootItem>): seq<string> {
    seq(|items|, i requires 0 <= i < |items| => Render(items[i]))
  }

  /** The root module text for headers with these names. */
  function RootModule(names: seq<string>): string {
    JoinLines(RenderAll(RootItems(names)))
  }

  function Names(headers: seq<Header>): seq<string> {
    seq(|headers|, i requires 0 <= i < |headers| => headers[i].name)
  }

  /** The items of the root module, two per header in header order. */
  lemma {:induction false} RootItemAt(names: seq<string>, i: nat)
    requires i < |names|
    ensures |RootItems(names)| == 2 * |names|
    ensures RootItems(names)[2 * i] == ReExport(names[i])
    ensures RootItems(names)[2 * i + 1] == IncludeModule("version", names[i])
  {
    var init := names[..|names| - 1];
    if i < |init| {
      RootItemAt(init, i);
    } else if init != [] {
      RootItemAt(init, 0);
    }
  }

  /** Each item of the root module is one of the two items of some header. */
  lemma RootItemOrigin(names: seq<string>, j: nat) returns (k: nat)
    requires j < |RootItems(names)|
    ensures k < |names|
    ensures || (j == 2 * k && RootItems(names)[j] == ReExport(names[k]))
            || (j == 2 * k + 1 && RootItems(names)[j] == IncludeModule("version", names[k]))
  {
    k := j / 2;
    if k >= |names| {
      RootItemAt(names, 0);
    }
    RootItemAt(names, k);
  }

  lemma RenderNoNewline(item: RootItem)
    requires '\n' !in item.modName
    requires item.IncludeModule? ==> '\n' !in item.file
    ensures '\n' !in Render(item)
  {
    match item
    case ReExport(m) =>
      assert '\n' !in "pub use ";
      assert '\n' !in "::*;";
    case IncludeModule(m, f) =>
      assert '\n' !in "mod ";
      assert '\n' !in INCLUDE_HEAD;
      assert '\n' !in INCLUDE_TAIL;
  }

  /** The lines of the root module are the rendered items, for names without newlines. */
  lemma RootModuleSplits(names: seq<string>)
    requires forall n :: n in names ==> '\n' !in n
    ensures SplitLines(RootModule(names)) == RenderAll(RootItems(names))
  {
    var items := RootItems(names);
    var lines := RenderAll(items);
    forall l | l in lines ensures '\n' !in l {
      var j :| 0 <= j < |lines| && lines[j] == l;
      var k := RootItemOrigin(names, j);
      assert names[k] in names;
      RenderNoNewline(items[j]);
    }
    SplitJoinLines(lines, "");
    assert JoinLines(lines) + "" == JoinLines(lines);
  }

  /**
   * The root module is exactly two lines per header, in header order:
   * `pub use <name>::*;` and then the `version` module including
   * `<name>.rs` from the output directory (for names without newlines).
   */
  lemma RootModuleLines(names: seq<string>)
    requires forall n :: n in names ==> '\n' !in n
    ensures var lines := SplitLines(RootModule(names));
      |lines| == 2 * |names| &&
      forall i :: 0 <= i < |names| ==>
        lines[2 * i] == "pub use " + names[i] + "::*;" &&
        lines[2 * i + 1] == "mod version" + INCLUDE_HEAD + names[i] + INCLUDE_TAIL
  {
    RootModuleSplits(names);
    var items := RootItems(names);
    var lines := RenderAll(items);
    if names != [] {
      RootItemAt(names, 0);
    }
    forall i | 0 <= i < |names|
      ensures lines[2 * i] == "pub use " + names[i] + "::*;"
      ensures lines[2 * i + 1] == "mod version" + INCLUDE_HEAD + names[i] + INCLUDE_TAIL
    {
      RootItemAt(names, i);
      assert lines[2 * i] == Render(items[2 * i]);
      assert lines[2 * i + 1] == Render(items[2 * i + 1]);
      VersionLine(names[i]);
    }
  }

  /**
   * `main`'s loop over the collected headers: each header's builder gets its
   * header text under `HEADER_PREFIX`, its filters and the include path of
   * the vendored sources (`lib`), and the root module gains two lines per
   * header. Generating and writing the bindings is not modelled.
   */
  method GenerateAll(headers: seq<Header>, lib: string) returns (configs: seq<Builder>, rootModule: string)
    ensures |configs| == |headers|
    ensures forall i :: 0 <= i < |headers| ==>
      configs[i].calls ==
        [HeaderContents(headers[i].name + ".h", HEADER_PREFIX + "\n" + headers[i].header)] +
        SelectedCalls(headers[i].whitelist, headers[i].blacklist) +
        [ClangArg("-I/" + lib)]
    ensures rootModule == RootModule(Names(headers))
  {
    configs := [];
    rootModule := "";
    for i := 0 to |headers|
      invariant |configs| == i
      invariant forall j :: 0 <= j < i ==>
        configs[j].calls ==
          [HeaderContents(headers[j].name + ".h", HEADER_PREFIX + "\n" + headers[j].header)] +
          SelectedCalls(headers[j].whitelist, headers[j].blacklist) +
          [ClangArg("-I/" + lib)]
      invariant rootModule == RootModule(Names(headers[..i]))
    {
      var header := headers[i];
      var builder := BuilderFor(header, HEADER_PREFIX);
      builder := builder.WithClangArg("-I/" + lib);
      configs := configs + [builder];

      rootModule := rootModule + ("pub use " + header.name + "::*;\n");
      rootModule := rootModule + ("mod version" + INCLUDE_HEAD + header.name + INCLUDE_TAIL + "\n");

      RootModuleStep(Names(headers[..i]), header.name);
      assert Names(headers[..i + 1]) == Names(headers[..i]) + [header.name];
    }
    assert headers[..|headers|] == headers;
  }

  /** Adding a header appends its two lines to the root module. */
  lemma RootModuleStep(names: seq<string>, name: string)
    ensures RootModule(names + [name]) ==
      RootModule(names) + ("pub use " + name + "::*;\n") +
      ("mod version" + INCLUDE_HEAD + name + INCLUDE_TAIL + "\n")
  {
    var lines := RenderAll(RootItems(names));
    var reExportLine, moduleLine := Render(ReExport(name)), Render(IncludeModule("version", name));
    assert RenderAll(RootItems(names + [name])) == lines + [reExportLine] + [moduleLine] by {
      assert (names + [name])[..|names|] == names;
      assert RootItems(names + [name]) == RootItems(names) + [ReExport(name), IncludeModule("version", name)];
    }
    assert RootModule(names + [name]) == JoinLines(lines) + reExportLine + "\n" + moduleLine + "\n" by {
      JoinLinesSnoc(lines + [reExportLine], moduleLine);
      JoinLinesSnoc(lines, reExportLine);
    }
    RegroupPairs(JoinLines(lines), reExportLine, "\n", moduleLine, "\n");
    ReExportLine(name);
    VersionLine(name);
  }

  lemma RegroupPairs<T>(a: seq<T>, b: seq<T>, c: seq<T>, d: seq<T>, e: seq<T>)
    ensures a + b + c + d + e == a + (b + c) + (d + e)
  {
  }

  /** The rendered re-export line, with its newline, is the text `main` formats. */
  lemma ReExportLine(name: string)
    ensures Render(ReExport(name)) + "\n" == "pub use " + name + "::*;\n"
  {
    assert "::*;" + "\n" == "::*;\n" by {
      var joined := "::*;" + "\n";
      forall i | 0 <= i < |joined| ensures joined[i] == "::*;\n"[i] {
        if i < 4 {
          assert joined[i] == "::*;"[i];
        }
      }
    }
    Lines.Regroup("pub use " + name, "::*;", "\n", []);
  }

  /** The rendered `version` module line is the text `main` formats. */
  lemma VersionLine(name: string)
    ensures Render(IncludeModule("version", name)) == "mod version" + INCLUDE_HEAD + name + INCLUDE_TAIL
  {
    assert "mod " + "version" == "mod version" by {
      var joined := "mod " + "version";
      forall i | 0 <= i < |joined| ensures joined[i] == "mod version"[i] {
        if i < 4 {
          assert joined[i] == "mod "[i];
        } else {
          assert joined[i] == "version"[i - 4];
        }
      }
    }
  }

  // ---------------------------------------------------------------------
  // Whether the root module's names resolve

  /** Every re-exported module is declared by some module item. */
  predicate Resolves(items: seq<RootItem>) {
    forall i :: 0 <= i < |items| && items[i].ReExport? ==>
      exists j :: 0 <= j < |items| && items[j].IncludeModule? && items[j].modName == items[i].modName
  }

  /** No two module items declare the same module. */
  predicate DistinctModules(items: seq<RootItem>) {
    forall i, j :: 0 <= i < j < |items| && items[i].IncludeModule? && items[j].IncludeModule? ==>
      items[i].modName != items[j].modName
  }

  /**
   * As written, the root module only resolves when every header is named
   * `version`, and only declares its modules once when there is at most one
   * header: with `alpha` and `beta` it re-exports two undeclared modules and
   * declares `version` twice.
   */
  lemma {:induction false} RootItemsAsWritten(names: seq<string>)
    ensures Resolves(RootItems(names)) <==> forall n :: n in names ==> n == "version"
    ensures DistinctModules(RootItems(names)) <==> |names| <= 1
  {
    var items := RootItems(names);
    forall j | 0 <= j < |items| && items[j].IncludeModule? ensures items[j].modName == "version" {
      var k := RootItemOrigin(names, j);
    }
    if forall n :: n in names ==> n == "version" {
      forall i | 0 <= i < |items| && items[i].ReExport?
        ensures exists j :: 0 <= j < |items| && items[j].IncludeModule? && items[j].modName == items[i].modName
      {
        var k := RootItemOrigin(names, i);
        assert names[k] in names;
        RootItemAt(names, 0);
        assert items[1].IncludeModule? && items[1].modName == "version";
      }
    } else {
      var n :| n in names && n != "version";
      var k :| 0 <= k < |names| && names[k] == n;
      RootItemAt(names, k);
      assert items[2 * k].ReExport? && items[2 * k].modName == n;
    }
    if |names| >= 2 {
      RootItemAt(names, 0);
      RootItemAt(names, 1);
      assert items[1].IncludeModule? && items[3].IncludeModule?;
    } else if |names| == 1 {
      RootItemAt(names, 0);
      assert items[0].ReExport?;
    }
  }

  /** The evidently intended items: per header a re-export of `<name>` and a module `<name>` including `<name>.rs`. */
  function CorrectedRootItems(names: seq<string>): seq<RootItem> {
    if names == [] then []
    else CorrectedRootItems(names[..|names| - 1]) + [ReExport(names[|names| - 1]), IncludeModule(names[|names| - 1], names[|names| - 1])]
  }

  lemma {:induction false} CorrectedItemAt(names: seq<string>, i: nat)
    requires i < |names|
    ensures |CorrectedRootItems(names)| == 2 * |names|
    ensures CorrectedRootItems(names)[2 * i] == ReExport(names[i])
    ensures CorrectedRootItems(names)[2 * i + 1] == IncludeModule(names[i], names[i])
  {
    var init := names[..|names| - 1];
    if i < |init| {
      CorrectedItemAt(init, i);
    } else if init != [] {
      CorrectedItemAt(init, 0);
    }
  }

  lemma CorrectedItemOrigin(names: seq<string>, j: nat) returns (k: nat)
    requires j < |CorrectedRootItems(names)|
    ensures k < |names|
    ensures || (j == 2 * k && CorrectedRootItems(names)[j] == ReExport(names[k]))
            || (j == 2 * k + 1 && CorrectedRootItems(names)[j] == IncludeModule(names[k], names[k]))
  {
    k := j / 2;
    if k >= |names| {
      CorrectedItemAt(names, 0);
    }
    CorrectedItemAt(names, k);
  }

  /**
   * The corrected root module always resolves, each module includes the file
   * generated for it, and its modules are declared once each exactly when
   * the header names are distinct.
   */
  lemma {:induction false} CorrectedRootItemsResolve(names: seq<string>)
    ensures Resolves(CorrectedRootItems(names))
    ensures forall item :: item in CorrectedRootItems(names) && item.IncludeModule? ==> item.file == item.modName
    ensures DistinctModules(CorrectedRootItems(names)) <==>
      forall i, j :: 0 <= i < j < |names| ==> names[i] != names[j]
  {
    var items := CorrectedRootItems(names);
    forall i | 0 <= i < |items| && items[i].ReExport?
      ensures exists j :: 0 <= j < |items| && items[j].IncludeModule? && items[j].modName == items[i].modName
    {
      var k := CorrectedItemOrigin(names, i);
      CorrectedItemAt(names, k);
      assert items[2 * k + 1].IncludeModule?;
    }
    forall item | item in items && item.IncludeModule? ensures item.file == item.modName {
      var j :| 0 <= j < |items| && items[j] == item;
      var k := CorrectedItemOrigin(names, j);
    }
    if forall i, j :: 0 <= i < j < |names| ==> names[i] != names[j] {
      forall i, j | 0 <= i < j < |items| && items[i].IncludeModule? && items[j].IncludeModule?
        ensures items[i].modName != items[j].modName
      {
        var ki := CorrectedItemOrigin(names, i);
        var kj := CorrectedItemOrigin(names, j);
      }
    } else {
      var i, j :| 0 <= i < j < |names| && names[i] == names[j];
      CorrectedItemAt(names, i);
      CorrectedItemAt(names, j);
      assert items[2 * i + 1].modName == items[2 * j + 1].modName;
    }
  }
}
