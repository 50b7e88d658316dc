/**
 * The `git-sys-header` crate: a header descriptor read from a reader,
 * validated, prefixed, and turned into a builder configuration.
 */
module SysHeader {
  import opened Wrappers
  import opened Errors
  import opened Bindgen
  import opened Filters

  /** A header to generate bindings for: its declaration text and at most one filter list. */
  datatype Header = Header(header: string, whitelist: Option<seq<Filter>>, blacklist: Option<seq<Filter>>)

  predicate HasDualFilters(h: Header) {
    h.whitelist.Some? && h.blacklist.Some?
  }

  /**
   * `Header::new`. What the reader yields (`source`) and what TOML
   * deserialisation makes of the text (`parse`) are inputs of the model.
   * A read failure becomes `Read`, a TOML failure `Deserialize`, both before
   * any filter check; a descriptor with both filter lists is refused with
   * `DualFilters`; otherwise the header text gets `prefix` and a newline in
   * front, and the filter lists are kept as parsed.
   */
  method New(source: Result<string, IoError>, parse: string -> Result<Header, TomlError>, prefix: string)
    returns (r: Result<Header, Error>)
    ensures source.Err? ==> r == Err(Read(source.error))
    ensures source.Ok? && parse(source.value).Err? ==> r == Err(Deserialize(parse(source.value).error))
    ensures r == Err(DualFilters) <==>
      source.Ok? && parse(source.value).Ok? && HasDualFilters(parse(source.value).value)
    ensures r.Ok? <==>
      source.Ok? && parse(source.value).Ok? && !HasDualFilters(parse(source.value).value)
    ensures r.Ok? ==>
      var parsed := parse(source.value).value;
      r.value.header == prefix + "\n" + parsed.header &&
      r.value.whitelist == parsed.whitelist && r.value.blacklist == parsed.blacklist
    ensures r != Err(Filename)
  {
    if source.Err? {
      return Err(FromIo(source.error));
    }
    var raw := source.value;
    var parsed := parse(raw);
    if parsed.Err? {
      return Err(FromToml(parsed.error));
    }
    var header := parsed.value;
    if header.whitelist.Some? && header.blacklist.Some? {
      return Err(DualFilters);
    }
    header := header.(header := prefix + "\n" + header.header);
    return Ok(header);
  }

  /**
   * `Header::into_builder`: a fresh builder receives the header text under
   * the caller's `name`, taken verbatim, then one call per filter of the
   * whitelist (or, without one, of the blacklist), in list order.
   */
  method IntoBuilder(h: Header, name: string) returns (b: Builder)
    ensures b.calls == [HeaderContents(name, h.header)] + SelectedCalls(h.whitelist, h.blacklist)
  {
    b := Default;
    b := b.WithHeaderContents(name, h.header);
    var selection := Selection(h.whitelist, h.blacklist);
    if selection.Some? {
      var (filters, t) := selection.value;
      for i := 0 to |filters|
        invariant b.calls == [HeaderContents(name, h.header)] + FilterCalls(filters[..i], t)
      {
        assert FilterCalls(filters[..i + 1], t) == FilterCalls(filters[..i], t) + [Op(Dispatch(t, filters[i].item), filters[i].name)];
        b := Build(filters[i], b, t);
      }
      assert filters[..|filters|] == filters;
    }
  }
}
