/**
 * The pronoun lookups of dist/browser.js:197-217: a name → display table
 * fetched once, and a per-user table written when the service reports a
 * pronoun id. Responses are parameters; issued requests are logged.
 */
module Pronouns {
  import opened Wrappers

  /** One element of the `/pronouns` catalog. */
  datatype PronounName = PronounName(name: string, display: string)

  /** One element of the `/users/{username}` response. */
  datatype UserPronounRecord = UserPronounRecord(pronounId: Option<string>)

  /** The names a catalog defines. */
  function Names(catalog: seq<PronounName>): set<string>
  {
    set p | p in catalog :: p.name
  }

  lemma NamesSnoc(catalog: seq<PronounName>)
    requires catalog != []
    ensures Names(catalog) == Names(catalog[..|catalog| - 1]) + {catalog[|catalog| - 1].name}
  {
    var prefix, last := catalog[..|catalog| - 1], catalog[|catalog| - 1];
    assert catalog == prefix + [last];
    forall k | k in Names(catalog)
      ensures k in Names(prefix) + {last.name}
    {
      var p :| p in catalog && p.name == k;
      if p != last {
        assert p in prefix;
      }
    }
  }

  /** `catalog.reduce((result, pronoun) => { result[pronoun.name] = pronoun.display; ... }, {})`. */
  function BuildPronounNames(catalog: seq<PronounName>): (r: map<string, string>)
    ensures r.Keys == Names(catalog)
    decreases |catalog|
  {
    if catalog == [] then map[]
    else
      NamesSnoc(catalog);
      var last := catalog[|catalog| - 1];
      BuildPronounNames(catalog[..|catalog| - 1])[last.name := last.display]
  }

  /** One fold step: the last entry written over its prefix's table. */
  lemma PronounNamesSnoc(catalog: seq<PronounName>)
    requires catalog != []
    ensures BuildPronounNames(catalog)
         == BuildPronounNames(catalog[..|catalog| - 1])[catalog[|catalog| - 1].name := catalog[|catalog| - 1].display]
  {
  }

  /** Each name maps to the display of its last entry. */
  lemma {:induction false} PronounNamesLastWins(catalog: seq<PronounName>, i: nat)
    requires i < |catalog|
    requires forall j :: i < j < |catalog| ==> catalog[j].name != catalog[i].name
    ensures catalog[i].name in BuildPronounNames(catalog)
    ensures BuildPronounNames(catalog)[catalog[i].name] == catalog[i].display
    decreases |catalog|
  {
    var n := |catalog| - 1;
    PronounNamesSnoc(catalog);
    if i < n {
      var prefix := catalog[..n];
      assert catalog[n].name != catalog[i].name;
      assert prefix[i] == catalog[i];
      assert forall j :: i < j < |prefix| ==> prefix[j] == catalog[j];
      PronounNamesLastWins(prefix, i);
    }
  }

  /** The fetches the pronoun lookups can issue. */
  datatype PronounRequest = AllPronouns | UserPronouns(username: string)

  /** The module-level `pronounNames` and `userPronouns`, and the requests issued so far. */
  datatype PronounState = PronounState(
    names: Option<map<string, string>>,
    userPronouns: map<string, Option<string>>,
    requests: seq<PronounRequest>)

  /** `userPronounsData?.[0]?.pronoun_id`. */
  function FirstPronounId(records: Option<seq<UserPronounRecord>>): Option<string>
  {
    if records.Some? && |records.value| > 0 then records.value[0].pronounId else None
  }

  /** JavaScript truthiness of a pronoun id: defined and not "". */
  predicate IsTruthy(id: Option<string>)
  {
    id.Some? && id.value != ""
  }

  /** `table[key]`, undefined for a missing key. */
  function Get<V>(table: map<string, V>, key: string): Option<V>
  {
    if key in table then Some(table[key]) else None
  }

  /** `userPronouns[username]`: the stored entry, undefined when there is none. */
  function Stored(userPronouns: map<string, Option<string>>, username: string): Option<string>
  {
    if username in userPronouns then userPronouns[username] else None
  }

  /** `fetchAllPronounNames`: the stored table, or the catalog's table, stored with no `ok` check. */
  function NamesStep(st: PronounState, catalog: seq<PronounName>): (PronounState, map<string, string>)
  {
    if st.names.Some? then (st, st.names.value)
    else
      var names := BuildPronounNames(catalog);
      (st.(names := Some(names), requests := st.requests + [AllPronouns]), names)
  }

  /** `fetchPronounsForUser`: the stored entry, written first when the reported id is truthy. */
  function UserStep(st: PronounState, username: string, catalog: seq<PronounName>,
                    records: Option<seq<UserPronounRecord>>): (PronounState, Option<string>)
  {
    var (st1, names) := NamesStep(st, catalog);
    var st2 := st1.(requests := st1.requests + [UserPronouns(username)]);
    var pid := FirstPronounId(records);
    var st3 := if IsTruthy(pid) then st2.(userPronouns := st2.userPronouns[username := Get(names, pid.value)]) else st2;
    (st3, Stored(st3.userPronouns, username))
  }

  /** Once the name table is set it is reused and never rebuilt, whatever the catalog. */
  lemma NamesFetchedOnce(st: PronounState, username: string, catalog: seq<PronounName>,
                         records: Option<seq<UserPronounRecord>>)
    ensures st.names.Some? ==> NamesStep(st, catalog) == (st, st.names.value)
    ensures st.names.None? ==> NamesStep(st, catalog).0.names == Some(BuildPronounNames(catalog))
    ensures UserStep(st, username, catalog, records).0.names
         == if st.names.Some? then st.names else Some(BuildPronounNames(catalog))
    ensures UserStep(st, username, catalog, records).0.requests
         == st.requests + (if st.names.Some? then [] else [AllPronouns]) + [UserPronouns(username)]
  {
  }

  /**
   * The entry for the user is written exactly when the first record has a
   * truthy id; otherwise the table is unchanged and the old entry (or
   * undefined) is returned.
   */
  lemma UserEntryWrittenOnlyForTruthyId(st: PronounState, username: string, catalog: seq<PronounName>,
                                        records: Option<seq<UserPronounRecord>>)
    ensures var (st1, result) := UserStep(st, username, catalog, records);
      var pid := FirstPronounId(records);
      var entry := if IsTruthy(pid) then Get(NamesStep(st, catalog).1, pid.value) else None;
      (IsTruthy(pid) ==> st1.userPronouns == st.userPronouns[username := entry] && result == entry)
      && (!IsTruthy(pid) ==> st1.userPronouns == st.userPronouns && result == Stored(st.userPronouns, username))
  {
  }

  /** Only the given user's entry can change. */
  lemma OtherUsersUnchanged(st: PronounState, username: string, catalog: seq<PronounName>,
                            records: Option<seq<UserPronounRecord>>, other: string)
    requires other != username
    ensures var table := UserStep(st, username, catalog, records).0.userPronouns;
      (other in table <==> other in st.userPronouns)
      && (other in table ==> table[other] == st.userPronouns[other])
  {
  }

  /** The two module-level variables of dist/browser.js:198-199 and the functions over them. */
  class PronounCache {
    var pronounNames: Option<map<string, string>>
    var userPronouns: map<string, Option<string>>
    var requests: seq<PronounRequest>

    function State(): PronounState
      reads this
    {
      PronounState(pronounNames, userPronouns, requests)
    }

    /** A fresh page: no names yet, `userPronouns = {}`. */
    constructor ()
      ensures State() == PronounState(None, map[], [])
    {
      pronounNames := None;
      userPronouns := map[];
      requests := [];
    }

    method FetchAllPronounNames(catalog: seq<PronounName>) returns (names: map<string, string>)
      modifies this
      ensures (State(), names) == NamesStep(old(State()), catalog)
    {
      if pronounNames.Some? {
        return pronounNames.value;
      }
      requests := requests + [AllPronouns];
      pronounNames := Some(BuildPronounNames(catalog));
      names := pronounNames.value;
    }

    /** `catalog` is what `/pronouns` would return, `records` what `/users/{username}` returns. */
    method FetchPronounsForUser(username: string, catalog: seq<PronounName>,
                                records: Option<seq<UserPronounRecord>>) returns (pronouns: Option<string>)
      modifies this
      ensures (State(), pronouns) == UserStep(old(State()), username, catalog, records)
    {
      if pronounNames.None? {
        var _ := FetchAllPronounNames(catalog);
      }
      requests := requests + [UserPronouns(username)];
      var pronounId := FirstPronounId(records);
      if pronounId.Some? && pronounId.value != "" {
        userPronouns := userPronouns[username := Get(pronounNames.value, pronounId.value)];
      }
      pronouns := Stored(userPronouns, username);
    }
  }
}
