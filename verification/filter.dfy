/**
 * Filters of a header descriptor and how they are applied to a builder:
 * the (filter type, item kind) dispatch table and the calls a list of
 * filters produces.
 */
module Filters {
  import opened Wrappers
  import opened Items
  import opened Bindgen

  datatype FilterType = Whitelist | Blacklist

  /** An item of a header to whitelist or blacklist: its kind and its identifier. */
  datatype Filter = Filter(item: Item, name: string)

  /** The filter type a builder operation belongs to. */
  function Direction(op: Operation): FilterType {
    match op
    case WhitelistFunction | WhitelistType | WhitelistVar => Whitelist
    case BlacklistFunction | BlacklistType | BlacklistItem => Blacklist
  }

  /** The item kind a builder operation targets. */
  function Target(op: Operation): Item {
    match op
    case WhitelistFunction | BlacklistFunction => Function
    case WhitelistType | BlacklistType => Type
    case WhitelistVar | BlacklistItem => Item
  }

  /**
   * The builder method chosen for a filter: a whitelisted item becomes
   * `whitelist_var`, a blacklisted one `blacklist_item`. The choice keeps
   * both the filter type and the item kind, so the table is one to one.
   */
  function Dispatch(t: FilterType, item: Item): (op: Operation)
    ensures Direction(op) == t && Target(op) == item
  {
    match t
    case Whitelist => (
      match item
      case Function => WhitelistFunction
      case Type => WhitelistType
      case Item => WhitelistVar)
    case Blacklist => (
      match item
      case Function => BlacklistFunction
      case Type => BlacklistType
      case Item => BlacklistItem)
  }

  /** Every one of the six operations is the dispatch of exactly its own pair. */
  lemma DispatchOnto(op: Operation)
    ensures Dispatch(Direction(op), Target(op)) == op
  {
  }

  /** `Filter::build`: exactly one builder call, of the filter's type and kind, with its name unchanged. */
  function Build(f: Filter, b: Builder, t: FilterType): (r: Builder)
    ensures |r.calls| == |b.calls| + 1 && r.calls[..|b.calls|] == b.calls
    ensures r.calls[|b.calls|].Op? && r.calls[|b.calls|].name == f.name
    ensures Direction(r.calls[|b.calls|].op) == t && Target(r.calls[|b.calls|].op) == f.item
  {
    b.With(Dispatch(t, f.item), f.name)
  }

  /** The calls that applying `filters` of type `t` one after the other adds to a builder. */
  function FilterCalls(filters: seq<Filter>, t: FilterType): seq<Call> {
    seq(|filters|, i requires 0 <= i < |filters| => Op(Dispatch(t, filters[i].item), filters[i].name))
  }

  /** The filter list a descriptor applies: the whitelist if there is one, else the blacklist. */
  function Selection(whitelist: Option<seq<Filter>>, blacklist: Option<seq<Filter>>): Option<(seq<Filter>, FilterType)> {
    if whitelist.Some? then Some((whitelist.value, Whitelist))
    else if blacklist.Some? then Some((blacklist.value, Blacklist))
    else None
  }

  /** The filter calls a descriptor with these filter sets adds after its header contents. */
  function SelectedCalls(whitelist: Option<seq<Filter>>, blacklist: Option<seq<Filter>>): seq<Call> {
    match Selection(whitelist, blacklist)
    case None => []
    case Some((filters, t)) => FilterCalls(filters, t)
  }

  /**
   * What the selected calls are: one per filter of the chosen list, in list
   * order, each naming that filter's item kind and identifier; all of the
   * whitelist's type when a whitelist is present (even beside a blacklist),
   * of the blacklist's type when only a blacklist is, and none at all when
   * neither is.
   */
  lemma SelectedCallsMeaning(whitelist: Option<seq<Filter>>, blacklist: Option<seq<Filter>>)
    ensures whitelist.None? && blacklist.None? ==> SelectedCalls(whitelist, blacklist) == []
    ensures whitelist.Some? ==> SelectedCalls(whitelist, blacklist) == FilterCalls(whitelist.value, Whitelist)
    ensures whitelist.None? && blacklist.Some? ==>
      SelectedCalls(whitelist, blacklist) == FilterCalls(blacklist.value, Blacklist)
    ensures Selection(whitelist, blacklist).Some? ==>
      var (filters, t) := Selection(whitelist, blacklist).value;
      var calls := SelectedCalls(whitelist, blacklist);
      |calls| == |filters| &&
      (t == Whitelist <==> whitelist.Some?) &&
      (forall i :: 0 <= i < |calls| ==>
        calls[i].Op? && Direction(calls[i].op) == t &&
        Target(calls[i].op) == filters[i].item && calls[i].name == filters[i].name)
  {
  }

  /**
   * The calls a filter list requests do not depend on the order of the list:
   * any rearrangement of the same filters requests the same set of calls.
   */
  lemma {:induction false} ReorderingKeepsRequests(filters: seq<Filter>, others: seq<Filter>, t: FilterType)
    requires multiset(filters) == multiset(others)
    ensures (set c | c in FilterCalls(filters, t)) == (set c | c in FilterCalls(others, t))
  {
    RequestsOfList(filters, t);
    RequestsOfList(others, t);
    assert forall f :: f in filters <==> f in others by {
      forall f ensures f in filters <==> f in others {
        assert f in filters <==> f in multiset(filters);
        assert f in others <==> f in multiset(others);
      }
    }
  }

  /** A call is requested by a filter list exactly when some filter of the list dispatches to it. */
  lemma RequestsOfList(filters: seq<Filter>, t: FilterType)
    ensures forall c :: c in FilterCalls(filters, t) <==>
      exists f :: f in filters && c == Op(Dispatch(t, f.item), f.name)
  {
    var calls := FilterCalls(filters, t);
    forall c | c in calls ensures exists f :: f in filters && c == Op(Dispatch(t, f.item), f.name) {
      var i :| 0 <= i < |calls| && calls[i] == c;
      assert filters[i] in filters;
    }
    forall c | exists f :: f in filters && c == Op(Dispatch(t, f.item), f.name) ensures c in calls {
      var f :| f in filters && c == Op(Dispatch(t, f.item), f.name);
      var i :| 0 <= i < |filters| && filters[i] == f;
      assert calls[i] == c;
    }
  }
}
