/**
 * `processMessage` (src/index.js:4-20): the emote pipeline on the message,
 * the pronoun lookup for the sender, and the record built from the tags.
 */
module Decorator {
  import opened Wrappers
  import opened NativeEmotes
  import opened LookupTables
  import opened EmotePipeline
  import opened Pronouns

  /** The chat tags the record reads; `badges` is the badge object as key/value pairs in key order. */
  datatype Tags = Tags(
    emotes: Option<seq<EmoteEntry>>,
    username: string,
    displayName: Option<string>,
    color: Option<string>,
    messageType: Option<string>,
    badges: Option<seq<(string, string)>>)

  datatype ProcessedMessage = ProcessedMessage(
    messageHTML: string,
    pronounsText: Option<string>,
    displayName: Option<string>,
    userColor: Option<string>,
    isSlashMeMessage: bool,
    badgeKeys: seq<string>)

  /** `Object.keys(badges)`. */
  function BadgeKeys(badges: seq<(string, string)>): (keys: seq<string>)
    ensures |keys| == |badges|
    ensures forall i :: 0 <= i < |badges| ==> keys[i] == badges[i].0
  {
    seq(|badges|, i requires 0 <= i < |badges| => badges[i].0)
  }

  /** The object literal of src/index.js:12-19, given the HTML and the pronoun text. */
  function BuildRecord(tags: Tags, html: string, pronouns: Option<string>): (r: ProcessedMessage)
    ensures r.messageHTML == html && r.pronounsText == pronouns
    ensures r.displayName == tags.displayName && r.userColor == tags.color
    ensures r.isSlashMeMessage <==> tags.messageType == Some("action")
    ensures tags.badges.None? ==> r.badgeKeys == []
    ensures tags.badges.Some? ==> |r.badgeKeys| == |tags.badges.value|
    ensures tags.badges.Some? ==> forall i :: 0 <= i < |tags.badges.value| ==> r.badgeKeys[i] == tags.badges.value[i].0
  {
    ProcessedMessage(
      html,
      pronouns,
      tags.displayName,
      tags.color,
      tags.messageType == Some("action"),
      if tags.badges.Some? then BadgeKeys(tags.badges.value) else [])
  }

  /** Only the message type "action" marks a /me message; any other type or none does not. */
  lemma SlashMeOnlyForAction(tags: Tags, html: string, pronouns: Option<string>, other: string)
    requires other != "action"
    ensures BuildRecord(tags.(messageType := Some("action")), html, pronouns).isSlashMeMessage
    ensures !BuildRecord(tags.(messageType := Some(other)), html, pronouns).isSlashMeMessage
    ensures !BuildRecord(tags.(messageType := None), html, pronouns).isSlashMeMessage
  {
  }

  /**
   * `processMessage`: the emote pipeline first, then the pronoun lookup for
   * `tags.username`; `catalog` and `records` are the pronoun service's answers.
   */
  method ProcessMessage(tags: Tags, message: string, emoteCache: LookupCache, channel: string, f: EmoteFetches,
                        pronounCache: PronounCache, catalog: seq<PronounName>,
                        records: Option<seq<UserPronounRecord>>) returns (r: ProcessedMessage)
    requires tags.emotes.Some? ==> WellFormedEmotes(tags.emotes.value)
    requires UsableState(emoteCache.State()) && UsableFetches(f)
    modifies emoteCache, pronounCache
    ensures var (st, html) := PipelineStep(old(emoteCache.State()), message, tags.emotes, channel, f);
      var (pst, pronouns) := UserStep(old(pronounCache.State()), tags.username, catalog, records);
      emoteCache.State() == st && pronounCache.State() == pst && r == BuildRecord(tags, html, pronouns)
  {
    var html := ReplaceEmotesWithImageTags(message, tags.emotes, emoteCache, channel, f);
    var pronouns := pronounCache.FetchPronounsForUser(tags.username, catalog, records);
    r := BuildRecord(tags, html, pronouns);
  }
}
