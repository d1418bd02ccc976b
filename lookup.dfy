/**
 * The BTTV and FFZ emote lookup tables and the memo cache that serves them
 * (dist/module.js:4-74). Network responses are parameters; the requests the
 * cache would issue are recorded in a log so that "no fetch" can be stated.
 */
module LookupTables {
  import opened Wrappers

  /** One element of a catalog the emote services return. */
  datatype CatalogEmote = CatalogEmote(id: string, code: string, imageType: string)

  /** The value stored under an emote code: `{id, type}`. */
  datatype EmoteData = EmoteData(id: string, imageType: string)

  /**
   * A JavaScript object used as a table: its entries and its keys in
   * insertion order, which is the order `Object.keys` hands them out.
   */
  datatype LookupTable = LookupTable(entries: map<string, EmoteData>, keys: seq<string>)

  const EmptyTable: LookupTable := LookupTable(map[], [])

  predicate Distinct(keys: seq<string>)
  {
    forall i, j :: 0 <= i < j < |keys| ==> keys[i] != keys[j]
  }

  /** The key list names every entry exactly once. */
  predicate WellKeyed(t: LookupTable)
  {
    Distinct(t.keys)
    && (forall i :: 0 <= i < |t.keys| ==> t.keys[i] in t.entries)
    && (forall k :: k in t.entries ==> k in t.keys)
  }

  function DataOf(e: CatalogEmote): EmoteData
  {
    EmoteData(e.id, e.imageType)
  }

  /** `result[emote.code] = emoteData`: a new key goes to the end, an old one keeps its place. */
  function Insert(t: LookupTable, e: CatalogEmote): (r: LookupTable)
    requires WellKeyed(t)
    ensures WellKeyed(r)
    ensures r.entries == t.entries[e.code := DataOf(e)]
    ensures r.keys == if e.code in t.entries then t.keys else t.keys + [e.code]
  {
    LookupTable(t.entries[e.code := DataOf(e)], if e.code in t.entries then t.keys else t.keys + [e.code])
  }

  /** The codes a catalog names. */
  function Codes(catalog: seq<CatalogEmote>): set<string>
  {
    set e | e in catalog :: e.code
  }

  lemma CodesSnoc(catalog: seq<CatalogEmote>)
    requires catalog != []
    ensures Codes(catalog) == Codes(catalog[..|catalog| - 1]) + {catalog[|catalog| - 1].code}
  {
    var prefix, last := catalog[..|catalog| - 1], catalog[|catalog| - 1];
    assert catalog == prefix + [last];
    forall k | k in Codes(catalog)
      ensures k in Codes(prefix) + {last.code}
    {
      var e :| e in catalog && e.code == k;
      if e != last {
        assert e in prefix;
      }
    }
  }

  /** `catalog.reduce((result, emote) => { result[emote.code] = ...; return result }, {})`. */
  function BuildTable(catalog: seq<CatalogEmote>): (r: LookupTable)
    ensures WellKeyed(r)
    ensures r.entries.Keys == Codes(catalog)
    decreases |catalog|
  {
    if catalog == [] then EmptyTable
    else
      CodesSnoc(catalog);
      Insert(BuildTable(catalog[..|catalog| - 1]), catalog[|catalog| - 1])
  }

  /** One fold step: the table of a non-empty catalog is its prefix's table with the last emote inserted. */
  lemma BuildTableSnoc(catalog: seq<CatalogEmote>)
    requires catalog != []
    ensures BuildTable(catalog).entries
         == BuildTable(catalog[..|catalog| - 1]).entries[catalog[|catalog| - 1].code := DataOf(catalog[|catalog| - 1])]
  {
  }

  /** The entries of the fold alone, one map update per emote. */
  function EntriesOf(catalog: seq<CatalogEmote>): map<string, EmoteData>
    decreases |catalog|
  {
    if catalog == [] then map[]
    else EntriesOf(catalog[..|catalog| - 1])[catalog[|catalog| - 1].code := DataOf(catalog[|catalog| - 1])]
  }

  lemma {:induction false} BuildTableEntries(catalog: seq<CatalogEmote>)
    ensures BuildTable(catalog).entries == EntriesOf(catalog)
    decreases |catalog|
  {
    if catalog != [] {
      BuildTableSnoc(catalog);
      BuildTableEntries(catalog[..|catalog| - 1]);
    }
  }

  /** In the entries fold, a code maps to the data of its last occurrence. */
  lemma {:induction false} EntriesLastWins(catalog: seq<CatalogEmote>, i: nat)
    requires i < |catalog|
    requires forall j :: i < j < |catalog| ==> catalog[j].code != catalog[i].code
    ensures catalog[i].code in EntriesOf(catalog)
    ensures EntriesOf(catalog)[catalog[i].code] == DataOf(catalog[i])
    decreases |catalog|
  {
    var n := |catalog| - 1;
    if i < n {
      var prefix := catalog[..n];
      assert prefix[i] == catalog[i];
      assert forall j :: i < j < |prefix| ==> prefix[j] == catalog[j];
      EntriesLastWins(prefix, i);
    }
  }

  /** A code maps to the data of its last occurrence in the catalog. */
  lemma BuildTableLastWins(catalog: seq<CatalogEmote>, i: nat)
    requires i < |catalog|
    requires forall j :: i < j < |catalog| ==> catalog[j].code != catalog[i].code
    ensures catalog[i].code in BuildTable(catalog).entries
    ensures BuildTable(catalog).entries[catalog[i].code] == DataOf(catalog[i])
  {
    BuildTableEntries(catalog);
    EntriesLastWins(catalog, i);
  }

  lemma UnionUpdate(m1: map<string, EmoteData>, m2: map<string, EmoteData>, k: string, v: EmoteData)
    ensures (m1 + m2)[k := v] == m1 + m2[k := v]
  {
  }

  /** Folding the entries of `a` then `b` is the entries of `a` overridden by those of `b`. */
  lemma {:induction false} EntriesConcat(a: seq<CatalogEmote>, b: seq<CatalogEmote>)
    ensures EntriesOf(a + b) == EntriesOf(a) + EntriesOf(b)
    decreases |b|
  {
    if b == [] {
      assert a + b == a;
    } else {
      var n := |b| - 1;
      var ab := a + b;
      assert ab[..|ab| - 1] == a + b[..n];
      assert ab[|ab| - 1] == b[n];
      EntriesConcat(a, b[..n]);
      UnionUpdate(EntriesOf(a), EntriesOf(b[..n]), b[n].code, DataOf(b[n]));
    }
  }

  /** Folding `a` then `b` is the table of `a` overridden by the table of `b`. */
  lemma BuildTableConcat(a: seq<CatalogEmote>, b: seq<CatalogEmote>)
    ensures BuildTable(a + b).entries == BuildTable(a).entries + BuildTable(b).entries
  {
    BuildTableEntries(a + b);
    BuildTableEntries(a);
    BuildTableEntries(b);
    EntriesConcat(a, b);
  }

  /** The channel table: a shared emote overrides a channel emote with the same code. */
  lemma SharedOverridesChannel(channelEmotes: seq<CatalogEmote>, sharedEmotes: seq<CatalogEmote>, code: string)
    requires code in BuildTable(sharedEmotes).entries
    ensures code in BuildTable(channelEmotes + sharedEmotes).entries
    ensures BuildTable(channelEmotes + sharedEmotes).entries[code] == BuildTable(sharedEmotes).entries[code]
  {
    BuildTableConcat(channelEmotes, sharedEmotes);
  }

  // ------------------------------------------------------------------ cache

  /** The fetches the cache can issue. */
  datatype Request =
    | UserIdLookup(channel: string)
    | BttvGlobalCatalog
    | BttvChannelCatalog(userId: string)
    | FfzChannelCatalog(userId: string)

  /** The outcome of a catalog fetch: not ok, or ok with the parsed catalog. */
  datatype CatalogResponse = NotOk | Ok(emotes: seq<CatalogEmote>)

  /** The outcome of the BTTV channel fetch, whose body holds two catalogs. */
  datatype ChannelResponse = ChannelNotOk | ChannelOk(channelEmotes: seq<CatalogEmote>, sharedEmotes: seq<CatalogEmote>)

  /** The four module-level variables, and the requests issued so far. */
  datatype CacheState = CacheState(
    userId: Option<string>,
    bttvGlobal: Option<LookupTable>,
    bttvChannel: Option<LookupTable>,
    ffzChannel: Option<LookupTable>,
    requests: seq<Request>)

  /** JavaScript truthiness of the stored user id: defined and not "". */
  predicate HasUserId(userId: Option<string>)
  {
    userId.Some? && userId.value != ""
  }

  /** `getUserId`: the stored id if truthy, else the fetched text, stored without an `ok` check. */
  function UserIdStep(st: CacheState, channel: string, idText: string): (CacheState, string)
  {
    if HasUserId(st.userId) then (st, st.userId.value)
    else (st.(userId := Some(idText), requests := st.requests + [UserIdLookup(channel)]), idText)
  }

  /** A fetched catalog, or `{}` (and nothing cached) when the response is not ok. */
  function Fetched(response: CatalogResponse): Option<LookupTable>
  {
    if response.Ok? then Some(BuildTable(response.emotes)) else None
  }

  function FetchedChannel(response: ChannelResponse): Option<LookupTable>
  {
    if response.ChannelOk? then Some(BuildTable(response.channelEmotes + response.sharedEmotes)) else None
  }

  function OrEmpty(t: Option<LookupTable>): LookupTable
  {
    if t.Some? then t.value else EmptyTable
  }

  /** `getBttvGlobalLookupTable`. */
  function GlobalStep(st: CacheState, response: CatalogResponse): (CacheState, LookupTable)
  {
    if st.bttvGlobal.Some? then (st, st.bttvGlobal.value)
    else
      var fetched := Fetched(response);
      (st.(bttvGlobal := fetched, requests := st.requests + [BttvGlobalCatalog]), OrEmpty(fetched))
  }

  /** `getBttvChannelLookupTable`: resolves the user id first when the table is not cached. */
  function ChannelStep(st: CacheState, channel: string, idText: string, response: ChannelResponse): (CacheState, LookupTable)
  {
    if st.bttvChannel.Some? then (st, st.bttvChannel.value)
    else
      var (st1, id) := UserIdStep(st, channel, idText);
      var fetched := FetchedChannel(response);
      (st1.(bttvChannel := fetched, requests := st1.requests + [BttvChannelCatalog(id)]), OrEmpty(fetched))
  }

  /** `getFfzChannelLookupTable`. */
  function FfzStep(st: CacheState, channel: string, idText: string, response: CatalogResponse): (CacheState, LookupTable)
  {
    if st.ffzChannel.Some? then (st, st.ffzChannel.value)
    else
      var (st1, id) := UserIdStep(st, channel, idText);
      var fetched := Fetched(response);
      (st1.(ffzChannel := fetched, requests := st1.requests + [FfzChannelCatalog(id)]), OrEmpty(fetched))
  }

  /** A cached table is returned as it is, with no request and no change. */
  lemma CachedTableServedWithoutFetch(st: CacheState, channel: string, idText: string,
                                      r: CatalogResponse, c: ChannelResponse)
    ensures st.bttvGlobal.Some? ==> GlobalStep(st, r) == (st, st.bttvGlobal.value)
    ensures st.bttvChannel.Some? ==> ChannelStep(st, channel, idText, c) == (st, st.bttvChannel.value)
    ensures st.ffzChannel.Some? ==> FfzStep(st, channel, idText, r) == (st, st.ffzChannel.value)
  {
  }

  /** A table that is not cached costs exactly one catalog request (plus the user id lookup when needed). */
  lemma UncachedTableFetches(st: CacheState, channel: string, idText: string, r: CatalogResponse, c: ChannelResponse)
    ensures st.bttvGlobal.None? ==> GlobalStep(st, r).0.requests == st.requests + [BttvGlobalCatalog]
    ensures st.bttvChannel.None? && HasUserId(st.userId)
      ==> ChannelStep(st, channel, idText, c).0.requests == st.requests + [BttvChannelCatalog(st.userId.value)]
    ensures st.bttvChannel.None? && !HasUserId(st.userId)
      ==> ChannelStep(st, channel, idText, c).0.requests == st.requests + [UserIdLookup(channel), BttvChannelCatalog(idText)]
    ensures st.ffzChannel.None? && HasUserId(st.userId)
      ==> FfzStep(st, channel, idText, r).0.requests == st.requests + [FfzChannelCatalog(st.userId.value)]
    ensures st.ffzChannel.None? && !HasUserId(st.userId)
      ==> FfzStep(st, channel, idText, r).0.requests == st.requests + [UserIdLookup(channel), FfzChannelCatalog(idText)]
  {
  }

  /**
   * A response that is not ok yields `{}` and leaves that table unset, so the
   * next call fetches again; the other two tables are not touched.
   */
  lemma NotOkLeavesUnset(st: CacheState, channel: string, idText: string)
    ensures st.bttvGlobal.None?
      ==> GlobalStep(st, NotOk) == (st.(requests := st.requests + [BttvGlobalCatalog]), EmptyTable)
    ensures st.bttvChannel.None?
      ==> var (st1, t) := ChannelStep(st, channel, idText, ChannelNotOk);
          st1.bttvChannel == None && t == EmptyTable
          && st1.bttvGlobal == st.bttvGlobal && st1.ffzChannel == st.ffzChannel
          && st1.requests == st.requests + (if HasUserId(st.userId) then [BttvChannelCatalog(st.userId.value)]
                                            else [UserIdLookup(channel), BttvChannelCatalog(idText)])
    ensures st.ffzChannel.None?
      ==> var (st1, t) := FfzStep(st, channel, idText, NotOk);
          st1.ffzChannel == None && t == EmptyTable
          && st1.bttvGlobal == st.bttvGlobal && st1.bttvChannel == st.bttvChannel
          && st1.requests == st.requests + (if HasUserId(st.userId) then [FfzChannelCatalog(st.userId.value)]
                                            else [UserIdLookup(channel), FfzChannelCatalog(idText)])
  {
  }

  /**
   * After one ok response the global table is fixed: every later call,
   * whatever its response, returns the same table and changes nothing.
   * This holds for an empty catalog too, because `{}` is truthy.
   */
  lemma OkResponseCachedForever(st: CacheState, emotes: seq<CatalogEmote>, later: CatalogResponse)
    requires st.bttvGlobal.None?
    ensures var (st1, t) := GlobalStep(st, Ok(emotes));
      t == BuildTable(emotes) && st1.bttvGlobal == Some(t) && GlobalStep(st1, later) == (st1, t)
  {
  }

  /** An ok channel response caches the fold of channel emotes then shared emotes. */
  lemma ChannelOkCachesBothLists(st: CacheState, channel: string, idText: string,
                                 channelEmotes: seq<CatalogEmote>, sharedEmotes: seq<CatalogEmote>, later: ChannelResponse)
    requires st.bttvChannel.None?
    ensures var (st1, t) := ChannelStep(st, channel, idText, ChannelOk(channelEmotes, sharedEmotes));
      t == BuildTable(channelEmotes + sharedEmotes) && st1.bttvChannel == Some(t)
      && ChannelStep(st1, channel, idText, later) == (st1, t)
  {
  }

  /**
   * After one ok FFZ response the table is fixed: every later call, whatever
   * its response, returns the same table and changes nothing, even for `{}`.
   */
  lemma FfzOkCachedForever(st: CacheState, channel: string, idText: string,
                           emotes: seq<CatalogEmote>, later: CatalogResponse, idText2: string)
    requires st.ffzChannel.None?
    ensures var (st1, t) := FfzStep(st, channel, idText, Ok(emotes));
      t == BuildTable(emotes) && st1.ffzChannel == Some(t)
      && FfzStep(st1, channel, idText2, later) == (st1, t)
  {
  }

  /**
   * A table once cached is never replaced: none of the three getters, whatever
   * its response, changes a table that is already set.
   */
  lemma CachedTablesKept(st: CacheState, channel: string, idText: string, r: CatalogResponse, c: ChannelResponse)
    ensures st.bttvGlobal.Some? ==>
      GlobalStep(st, r).0.bttvGlobal == st.bttvGlobal
      && ChannelStep(st, channel, idText, c).0.bttvGlobal == st.bttvGlobal
      && FfzStep(st, channel, idText, r).0.bttvGlobal == st.bttvGlobal
    ensures st.bttvChannel.Some? ==>
      GlobalStep(st, r).0.bttvChannel == st.bttvChannel
      && ChannelStep(st, channel, idText, c).0.bttvChannel == st.bttvChannel
      && FfzStep(st, channel, idText, r).0.bttvChannel == st.bttvChannel
    ensures st.ffzChannel.Some? ==>
      GlobalStep(st, r).0.ffzChannel == st.ffzChannel
      && ChannelStep(st, channel, idText, c).0.ffzChannel == st.ffzChannel
      && FfzStep(st, channel, idText, r).0.ffzChannel == st.ffzChannel
  {
  }

  /**
   * The user id is stored after its first lookup whatever the response was,
   * and looked up again only while the stored text is "".
   */
  lemma UserIdResolvedOnce(st: CacheState, channel: string, idText: string, channel2: string, idText2: string)
    ensures var (st1, id) := UserIdStep(st, channel, idText);
      HasUserId(st.userId) ==> st1 == st && id == st.userId.value
    ensures var (st1, id) := UserIdStep(st, channel, idText);
      !HasUserId(st.userId) ==> id == idText && st1.userId == Some(idText)
                                && st1.requests == st.requests + [UserIdLookup(channel)]
    ensures var (st1, id) := UserIdStep(st, channel, idText);
      HasUserId(st1.userId) ==> UserIdStep(st1, channel2, idText2) == (st1, id)
  {
  }

  /** The FFZ fetch uses the id the BTTV channel fetch resolved. */
  lemma ChannelFetchesShareUserId(st: CacheState, channel: string, idText: string, c: ChannelResponse,
                                  idText2: string, r: CatalogResponse)
    requires st.bttvChannel.None? && st.ffzChannel.None? && !HasUserId(st.userId) && idText != ""
    ensures var st1 := ChannelStep(st, channel, idText, c).0;
      FfzStep(st1, channel, idText2, r).0.requests
        == st.requests + [UserIdLookup(channel), BttvChannelCatalog(idText), FfzChannelCatalog(idText)]
  {
    var st1 := ChannelStep(st, channel, idText, c).0;
    ChannelStepResolvesId(st, channel, idText, c);
    UncachedTableFetches(st1, channel, idText2, r, c);
    AppendThird(st.requests, UserIdLookup(channel), BttvChannelCatalog(idText), FfzChannelCatalog(idText));
  }

  /** An uncached channel fetch with no stored id stores the looked-up text and leaves the FFZ table alone. */
  lemma ChannelStepResolvesId(st: CacheState, channel: string, idText: string, c: ChannelResponse)
    requires st.bttvChannel.None? && !HasUserId(st.userId)
    ensures var st1 := ChannelStep(st, channel, idText, c).0;
      st1.userId == Some(idText) && st1.ffzChannel == st.ffzChannel
      && st1.requests == st.requests + [UserIdLookup(channel), BttvChannelCatalog(idText)]
  {
  }

  lemma AppendThird(rs: seq<Request>, a: Request, b: Request, c: Request)
    ensures rs + [a, b] + [c] == rs + [a, b, c]
  {
  }

  /** The four module-level variables of dist/module.js:4-7 and the getters over them. */
  class LookupCache {
    var userId: Option<string>
    var bttvGlobalTable: Option<LookupTable>
    var bttvChannelTable: Option<LookupTable>
    var ffzChannelTable: Option<LookupTable>
    var requests: seq<Request>

    function State(): CacheState
      reads this
    {
      CacheState(userId, bttvGlobalTable, bttvChannelTable, ffzChannelTable, requests)
    }

    /** A fresh page: every variable undefined, nothing fetched. */
    constructor ()
      ensures State() == CacheState(None, None, None, None, [])
    {
      userId := None;
      bttvGlobalTable := None;
      bttvChannelTable := None;
      ffzChannelTable := None;
      requests := [];
    }

    /** `channel` is the page's `channel` query parameter, `idText` the body the lookup would return. */
    method GetUserId(channel: string, idText: string) returns (id: string)
      modifies this
      ensures (State(), id) == UserIdStep(old(State()), channel, idText)
    {
      if userId.Some? && userId.value != "" {
        return userId.value;
      }
      requests := requests + [UserIdLookup(channel)];
      userId := Some(idText);
      id := idText;
    }

    method GetBttvGlobalTable(response: CatalogResponse) returns (table: LookupTable)
      modifies this
      ensures (State(), table) == GlobalStep(old(State()), response)
    {
      if bttvGlobalTable.Some? {
        return bttvGlobalTable.value;
      }
      requests := requests + [BttvGlobalCatalog];
      if response.Ok? {
        bttvGlobalTable := Some(BuildTable(response.emotes));
        return bttvGlobalTable.value;
      }
      table := EmptyTable;
    }

    method GetBttvChannelTable(channel: string, idText: string, response: ChannelResponse) returns (table: LookupTable)
      modifies this
      ensures (State(), table) == ChannelStep(old(State()), channel, idText, response)
    {
      if bttvChannelTable.Some? {
        return bttvChannelTable.value;
      }
      var id := GetUserId(channel, idText);
      requests := requests + [BttvChannelCatalog(id)];
      if response.ChannelOk? {
        bttvChannelTable := Some(BuildTable(response.channelEmotes + response.sharedEmotes));
        return bttvChannelTable.value;
      }
      table := EmptyTable;
    }

    method GetFfzChannelTable(channel: string, idText: string, response: CatalogResponse) returns (table: LookupTable)
      modifies this
      ensures (State(), table) == FfzStep(old(State()), channel, idText, response)
    {
      if ffzChannelTable.Some? {
        return ffzChannelTable.value;
      }
      var id := GetUserId(channel, idText);
      requests := requests + [FfzChannelCatalog(id)];
      if response.Ok? {
        ffzChannelTable := Some(BuildTable(response.emotes));
        return ffzChannelTable.value;
      }
      table := EmptyTable;
    }
  }
}
