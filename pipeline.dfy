/**
 * `replaceEmotesWithImageTags` (src/emotes.js:169-176): the native pass,
 * then the BTTV global, BTTV channel and FFZ channel code stages, each code
 * stage over the table the cache hands out at that point.
 */
module EmotePipeline {
  import opened Wrappers
  import opened NativeEmotes
  import opened LookupTables
  import opened CodeEmotes

  /** What the network would answer to each fetch the lookups can make. */
  datatype EmoteFetches = EmoteFetches(
    globalResponse: CatalogResponse,
    userIdText: string,
    channelResponse: ChannelResponse,
    ffzResponse: CatalogResponse)

  /** A table a code stage can run over: every key non-empty and present. */
  predicate Usable(t: LookupTable)
  {
    CodesInTable(t.entries, t.keys)
  }

  predicate NonEmptyCodes(catalog: seq<CatalogEmote>)
  {
    forall i :: 0 <= i < |catalog| ==> |catalog[i].code| > 0
  }

  lemma BuildTableUsable(catalog: seq<CatalogEmote>)
    requires NonEmptyCodes(catalog)
    ensures Usable(BuildTable(catalog))
  {
    var t := BuildTable(catalog);
    forall i | 0 <= i < |t.keys|
      ensures |t.keys[i]| > 0
    {
      assert t.keys[i] in Codes(catalog);
      var e :| e in catalog && e.code == t.keys[i];
    }
  }

  predicate UsableOption(t: Option<LookupTable>)
  {
    t.Some? ==> Usable(t.value)
  }

  /** Every cached table can be run over. */
  predicate UsableState(st: CacheState)
  {
    UsableOption(st.bttvGlobal) && UsableOption(st.bttvChannel) && UsableOption(st.ffzChannel)
  }

  /** Every catalog an ok response carries has non-empty codes. */
  predicate UsableFetches(f: EmoteFetches)
  {
    (f.globalResponse.Ok? ==> NonEmptyCodes(f.globalResponse.emotes))
    && (f.channelResponse.ChannelOk? ==> NonEmptyCodes(f.channelResponse.channelEmotes + f.channelResponse.sharedEmotes))
    && (f.ffzResponse.Ok? ==> NonEmptyCodes(f.ffzResponse.emotes))
  }

  lemma GlobalStepUsable(st: CacheState, f: EmoteFetches)
    requires UsableState(st) && UsableFetches(f)
    ensures UsableState(GlobalStep(st, f.globalResponse).0) && Usable(GlobalStep(st, f.globalResponse).1)
  {
    if f.globalResponse.Ok? {
      BuildTableUsable(f.globalResponse.emotes);
    }
  }

  lemma ChannelStepUsable(st: CacheState, channel: string, f: EmoteFetches)
    requires UsableState(st) && UsableFetches(f)
    ensures var (st1, t) := ChannelStep(st, channel, f.userIdText, f.channelResponse);
      UsableState(st1) && Usable(t)
  {
    if f.channelResponse.ChannelOk? {
      BuildTableUsable(f.channelResponse.channelEmotes + f.channelResponse.sharedEmotes);
    }
  }

  lemma FfzStepUsable(st: CacheState, channel: string, f: EmoteFetches)
    requires UsableState(st) && UsableFetches(f)
    ensures var (st1, t) := FfzStep(st, channel, f.userIdText, f.ffzResponse);
      UsableState(st1) && Usable(t)
  {
    if f.ffzResponse.Ok? {
      BuildTableUsable(f.ffzResponse.emotes);
    }
  }

  /** The four stages in their fixed order, over given tables. */
  function PipelineResult(message: string, emotes: Option<seq<EmoteEntry>>,
                          global: LookupTable, channel: LookupTable, ffz: LookupTable): string
    requires emotes.Some? ==> WellFormedEmotes(emotes.value)
    requires Usable(global) && Usable(channel) && Usable(ffz)
  {
    var native := NativeResult(message, emotes);
    var afterGlobal := CodeStage(native, global, Bttv);
    var afterChannel := CodeStage(afterGlobal, channel, Bttv);
    CodeStage(afterChannel, ffz, Ffz)
  }

  /** The pipeline over the cache: the new cache state and the message. */
  function PipelineStep(st: CacheState, message: string, emotes: Option<seq<EmoteEntry>>,
                        channel: string, f: EmoteFetches): (CacheState, string)
    requires emotes.Some? ==> WellFormedEmotes(emotes.value)
    requires UsableState(st) && UsableFetches(f)
  {
    GlobalStepUsable(st, f);
    var (st1, global) := GlobalStep(st, f.globalResponse);
    ChannelStepUsable(st1, channel, f);
    var (st2, channelTable) := ChannelStep(st1, channel, f.userIdText, f.channelResponse);
    FfzStepUsable(st2, channel, f);
    var (st3, ffz) := FfzStep(st2, channel, f.userIdText, f.ffzResponse);
    (st3, PipelineResult(message, emotes, global, channelTable, ffz))
  }

  /** No native emotes and no code of any table in the message: the message comes back as it is. */
  lemma PipelinePassThrough(message: string, emotes: Option<seq<EmoteEntry>>,
                            global: LookupTable, channel: LookupTable, ffz: LookupTable)
    requires emotes == None || emotes == Some([])
    requires Usable(global) && Usable(channel) && Usable(ffz)
    requires NoCodeFound(message, global.keys) && NoCodeFound(message, channel.keys) && NoCodeFound(message, ffz.keys)
    ensures PipelineResult(message, emotes, global, channel, ffz) == message
  {
    NoEmotesNoChange(message);
  }

  /** With nothing cached and every catalog fetch failing, only the native pass acts. */
  lemma FailedFetchesLeaveNativeResult(message: string, emotes: Option<seq<EmoteEntry>>, channel: string, idText: string)
    requires emotes.Some? ==> WellFormedEmotes(emotes.value)
    ensures var st := CacheState(None, None, None, None, []);
      var f := EmoteFetches(NotOk, idText, ChannelNotOk, NotOk);
      UsableState(st) && UsableFetches(f)
      && PipelineStep(st, message, emotes, channel, f).1 == NativeResult(message, emotes)
    ensures var st1 := PipelineStep(CacheState(None, None, None, None, []), message, emotes, channel,
                                    EmoteFetches(NotOk, idText, ChannelNotOk, NotOk)).0;
      st1.bttvGlobal == None && st1.bttvChannel == None && st1.ffzChannel == None
      && st1.userId == Some(idText)
      && st1.requests == [BttvGlobalCatalog, UserIdLookup(channel), BttvChannelCatalog(idText)]
                         + (if idText != "" then [FfzChannelCatalog(idText)]
                            else [UserIdLookup(channel), FfzChannelCatalog(idText)])
  {
    var native := NativeResult(message, emotes);
    EmptyTableNoChange(native, Bttv);
    EmptyTableNoChange(native, Ffz);
  }

  /** A pipeline call keeps the cache usable, so the next message can be processed. */
  lemma PipelineStepKeepsUsable(st: CacheState, message: string, emotes: Option<seq<EmoteEntry>>,
                                channel: string, f: EmoteFetches)
    requires emotes.Some? ==> WellFormedEmotes(emotes.value)
    requires UsableState(st) && UsableFetches(f)
    ensures UsableState(PipelineStep(st, message, emotes, channel, f).0)
  {
    GlobalStepUsable(st, f);
    var st1 := GlobalStep(st, f.globalResponse).0;
    ChannelStepUsable(st1, channel, f);
    FfzStepUsable(ChannelStep(st1, channel, f.userIdText, f.channelResponse).0, channel, f);
  }

  /** A table cached before a pipeline call is still cached, unchanged, after it. */
  lemma PipelineKeepsCachedTables(st: CacheState, message: string, emotes: Option<seq<EmoteEntry>>,
                                  channel: string, f: EmoteFetches)
    requires emotes.Some? ==> WellFormedEmotes(emotes.value)
    requires UsableState(st) && UsableFetches(f)
    ensures var st3 := PipelineStep(st, message, emotes, channel, f).0;
      (st.bttvGlobal.Some? ==> st3.bttvGlobal == st.bttvGlobal)
      && (st.bttvChannel.Some? ==> st3.bttvChannel == st.bttvChannel)
      && (st.ffzChannel.Some? ==> st3.ffzChannel == st.ffzChannel)
  {
    var st1 := GlobalStep(st, f.globalResponse).0;
    var st2 := ChannelStep(st1, channel, f.userIdText, f.channelResponse).0;
    CachedTablesKept(st, channel, f.userIdText, f.globalResponse, f.channelResponse);
    CachedTablesKept(st1, channel, f.userIdText, f.globalResponse, f.channelResponse);
    CachedTablesKept(st2, channel, f.userIdText, f.ffzResponse, f.channelResponse);
  }

  /** The code stages see the output of the native pass, not the original message. */
  lemma CodeStagesSeeNativeOutput(message: string, emotes: Option<seq<EmoteEntry>>,
                                  global: LookupTable, channel: LookupTable, ffz: LookupTable)
    requires emotes.Some? ==> WellFormedEmotes(emotes.value)
    requires Usable(global) && Usable(channel) && Usable(ffz)
    ensures PipelineResult(message, emotes, global, channel, ffz)
         == PipelineResult(NativeResult(message, emotes), None, global, channel, ffz)
  {
  }

  /** `replaceEmotesWithImageTags`, with the page's channel name and the fetch outcomes as parameters. */
  method ReplaceEmotesWithImageTags(message: string, emotes: Option<seq<EmoteEntry>>,
                                    cache: LookupCache, channel: string, f: EmoteFetches) returns (result: string)
    requires emotes.Some? ==> WellFormedEmotes(emotes.value)
    requires UsableState(cache.State()) && UsableFetches(f)
    modifies cache
    ensures (cache.State(), result) == PipelineStep(old(cache.State()), message, emotes, channel, f)
  {
    result := ReplaceTwitchStandardEmotes(message, emotes);
    GlobalStepUsable(cache.State(), f);
    var global := cache.GetBttvGlobalTable(f.globalResponse);
    result := ReplaceCodeEmotes(result, global, Bttv);
    ChannelStepUsable(cache.State(), channel, f);
    var channelTable := cache.GetBttvChannelTable(channel, f.userIdText, f.channelResponse);
    result := ReplaceCodeEmotes(result, channelTable, Bttv);
    FfzStepUsable(cache.State(), channel, f);
    var ffz := cache.GetFfzChannelTable(channel, f.userIdText, f.ffzResponse);
    result := ReplaceCodeEmotes(result, ffz, Ffz);
  }
}
