/** The signed-in user's reading preferences: which articles are read and saved, which
    topics are muted, which sources are shown, and whether AI summaries are on. The
    lists change by append-if-absent, remove-every-copy and toggle; an empty
    `enabledSources` list means every source is shown. Persistence and the React state
    machinery are not modelled; the clock is a parameter. */
module Preferences {
  import opened Types
  import opened SeqUtil

  /** DEFAULT_PREFERENCES, completed with the user and the time. */
  function DefaultPreferences(userId: string, now: int): (p: UserPreferences)
    ensures p.userId == userId && p.lastUpdated == now
    ensures p.enabledSources == [] && p.mutedTopics == [] && p.readArticles == [] && p.savedArticles == []
    ensures p.aiSummariesEnabled
  {
    UserPreferences(userId, [], [], [], [], true, now)
  }

  /** A partial update: the fields to overwrite. */
  datatype PreferencesUpdate = PreferencesUpdate(
    enabledSources: Option<seq<string>>,
    mutedTopics: Option<seq<string>>,
    readArticles: Option<seq<string>>,
    savedArticles: Option<seq<string>>,
    aiSummariesEnabled: Option<bool>)

  const NoChange: PreferencesUpdate := PreferencesUpdate(None, None, None, None, None)

  function Pick<V>(update: Option<V>, current: V): V
  {
    if update.Some? then update.value else current
  }

  /** `{ ...preferences, ...updates, lastUpdated }`. */
  function Merge(prefs: UserPreferences, updates: PreferencesUpdate, now: int): (r: UserPreferences)
    ensures r.userId == prefs.userId && r.lastUpdated == now
    ensures updates == NoChange ==> r == prefs.(lastUpdated := now)
  {
    UserPreferences(
      prefs.userId,
      Pick(updates.enabledSources, prefs.enabledSources),
      Pick(updates.mutedTopics, prefs.mutedTopics),
      Pick(updates.readArticles, prefs.readArticles),
      Pick(updates.savedArticles, prefs.savedArticles),
      Pick(updates.aiSummariesEnabled, prefs.aiSummariesEnabled),
      now)
  }

  // ---------------------------------------------------------------- list operations

  /** `list.includes(x) ? list : [...list, x]`. */
  function AppendIfAbsent(list: seq<string>, x: string): (r: seq<string>)
    ensures x in r
    ensures x in list ==> r == list
    ensures x !in list ==> r == list + [x]
  {
    if x in list then list else list + [x]
  }

  function Differs(x: string): string -> bool
  {
    y => y != x
  }

  /** `list.filter(y => y !== x)`. */
  function RemoveAll(list: seq<string>, x: string): (r: seq<string>)
    ensures |r| <= |list|
  {
    Filter(list, Differs(x))
  }

  /** Membership flipped: every copy removed when present, one appended when absent. */
  function Toggle(list: seq<string>, x: string): (r: seq<string>)
    ensures x in r <==> x !in list
    ensures forall y :: y != x ==> (y in r <==> y in list)
  {
    RemoveAllMembers(list, x);
    if x in list then RemoveAll(list, x) else list + [x]
  }

  /** The new `enabledSources` list after toggling a source: an empty list becomes the
      one source; otherwise the source's membership is flipped. */
  function ToggleSourceList(enabled: seq<string>, sourceId: string): (r: seq<string>)
    ensures sourceId in r <==> enabled == [] || sourceId !in enabled
    ensures enabled == [] ==> forall y :: y in r <==> y == sourceId
    ensures enabled != [] ==> forall y :: y != sourceId ==> (y in r <==> y in enabled)
  {
    if |enabled| == 0 then [sourceId] else Toggle(enabled, sourceId)
  }

  // ---------------------------------------------------------------- checks

  predicate IsRead(prefs: Option<UserPreferences>, articleId: string)
  {
    prefs.Some? && articleId in prefs.value.readArticles
  }

  predicate IsSaved(prefs: Option<UserPreferences>, articleId: string)
  {
    prefs.Some? && articleId in prefs.value.savedArticles
  }

  predicate IsTopicMuted(prefs: Option<UserPreferences>, topic: string)
  {
    prefs.Some? && topic in prefs.value.mutedTopics
  }

  /** No preferences, or an empty list, shows every source. */
  predicate IsSourceEnabled(prefs: Option<UserPreferences>, sourceId: string)
  {
    prefs.None? || |prefs.value.enabledSources| == 0 || sourceId in prefs.value.enabledSources
  }

  // ---------------------------------------------------------------- the store

  /** The provider's state: the signed-in user and their preferences. */
  class PreferencesStore {
    var user: Option<string>
    var preferences: Option<UserPreferences>
    var error: Option<string>

    constructor ()
      ensures user == None && preferences == None && error == None
    {
      user := None;
      preferences := None;
      error := None;
    }

    /** The load on sign-in or sign-out. `stored` is what was kept for the user: nothing,
        a record, or text that did not parse (with the parser's message). */
    method Load(signedIn: Option<string>, stored: Option<Result<UserPreferences, string>>, now: int)
      modifies this
      ensures user == signedIn
      ensures signedIn.None? ==> preferences == None && error == old(error)
      ensures signedIn.Some? && stored.Some? && stored.value.Ok? ==>
                preferences == Some(stored.value.value) && error == None
      ensures signedIn.Some? && stored.None? ==>
                preferences == Some(DefaultPreferences(signedIn.value, now)) && error == None
      ensures signedIn.Some? && stored.Some? && stored.value.Err? ==>
                preferences == Some(DefaultPreferences(signedIn.value, now)) && error == Some(stored.value.error)
    {
      user := signedIn;
      if signedIn.None? {
        preferences := None;
        return;
      }
      error := None;
      match stored
      case Some(Ok(parsed)) =>
        preferences := Some(parsed);
      case None =>
        preferences := Some(DefaultPreferences(signedIn.value, now));
      case Some(Err(message)) =>
        error := Some(message);
        preferences := Some(DefaultPreferences(signedIn.value, now));
    }

    /** updatePreferences: nothing without a user or preferences; otherwise the given
        fields are overwritten and the record is stamped. */
    method UpdatePreferences(updates: PreferencesUpdate, now: int)
      modifies this
      ensures user == old(user) && error == old(error)
      ensures old(user).None? || old(preferences).None? ==> preferences == old(preferences)
      ensures old(user).Some? && old(preferences).Some? ==>
                preferences == Some(Merge(old(preferences).value, updates, now))
    {
      if user.None? || preferences.None? {
        return;
      }
      preferences := Some(Merge(preferences.value, updates, now));
    }

    method MarkAsRead(articleId: string, now: int)
      modifies this
      ensures user == old(user) && error == old(error)
      ensures old(preferences).None? || old(user).None? || articleId in old(preferences).value.readArticles ==>
                preferences == old(preferences)
      ensures old(preferences).Some? && old(user).Some? && articleId !in old(preferences).value.readArticles ==>
                preferences == Some(old(preferences).value.(
                  readArticles := AppendIfAbsent(old(preferences).value.readArticles, articleId),
                  lastUpdated := now))
    {
      if preferences.None? || articleId in preferences.value.readArticles {
        return;
      }
      UpdatePreferences(NoChange.(readArticles := Some(preferences.value.readArticles + [articleId])), now);
    }

    method ToggleSaved(articleId: string, now: int)
      modifies this
      ensures user == old(user) && error == old(error)
      ensures old(preferences).None? || old(user).None? ==> preferences == old(preferences)
      ensures old(preferences).Some? && old(user).Some? ==>
                preferences == Some(old(preferences).value.(
                  savedArticles := Toggle(old(preferences).value.savedArticles, articleId),
                  lastUpdated := now))
    {
      if preferences.None? {
        return;
      }
      var saved := preferences.value.savedArticles;
      var isSaved := articleId in saved;
      UpdatePreferences(NoChange.(savedArticles := Some(if isSaved then RemoveAll(saved, articleId) else saved + [articleId])), now);
    }

    method MuteTopic(topic: string, now: int)
      modifies this
      ensures user == old(user) && error == old(error)
      ensures old(preferences).None? || old(user).None? || topic in old(preferences).value.mutedTopics ==>
                preferences == old(preferences)
      ensures old(preferences).Some? && old(user).Some? && topic !in old(preferences).value.mutedTopics ==>
                preferences == Some(old(preferences).value.(
                  mutedTopics := AppendIfAbsent(old(preferences).value.mutedTopics, topic),
                  lastUpdated := now))
    {
      if preferences.None? || topic in preferences.value.mutedTopics {
        return;
      }
      UpdatePreferences(NoChange.(mutedTopics := Some(preferences.value.mutedTopics + [topic])), now);
    }

    method UnmuteTopic(topic: string, now: int)
      modifies this
      ensures user == old(user) && error == old(error)
      ensures old(preferences).None? || old(user).None? ==> preferences == old(preferences)
      ensures old(preferences).Some? && old(user).Some? ==>
                preferences == Some(old(preferences).value.(
                  mutedTopics := RemoveAll(old(preferences).value.mutedTopics, topic),
                  lastUpdated := now))
    {
      if preferences.None? {
        return;
      }
      UpdatePreferences(NoChange.(mutedTopics := Some(RemoveAll(preferences.value.mutedTopics, topic))), now);
    }

    method ToggleSource(sourceId: string, now: int)
      modifies this
      ensures user == old(user) && error == old(error)
      ensures old(preferences).None? || old(user).None? ==> preferences == old(preferences)
      ensures old(preferences).Some? && old(user).Some? ==>
                preferences == Some(old(preferences).value.(
                  enabledSources := ToggleSourceList(old(preferences).value.enabledSources, sourceId),
                  lastUpdated := now))
    {
      if preferences.None? {
        return;
      }
      var enabled := preferences.value.enabledSources;
      var isEnabled := |enabled| == 0 || sourceId in enabled;
      if |enabled| == 0 {
        UpdatePreferences(NoChange.(enabledSources := Some([sourceId])), now);
      } else {
        UpdatePreferences(NoChange.(enabledSources := Some(if isEnabled then RemoveAll(enabled, sourceId) else enabled + [sourceId])), now);
      }
    }

    method SetAiSummariesEnabled(enabled: bool, now: int)
      modifies this
      ensures user == old(user) && error == old(error)
      ensures old(preferences).None? || old(user).None? ==> preferences == old(preferences)
      ensures old(preferences).Some? && old(user).Some? ==>
                preferences == Some(old(preferences).value.(aiSummariesEnabled := enabled, lastUpdated := now))
    {
      UpdatePreferences(NoChange.(aiSummariesEnabled := Some(enabled)), now);
    }
  }

  // ---------------------------------------------------------------- properties

  /** Append-if-absent adds the element, keeps every other, is idempotent and never
      introduces a duplicate. */
  lemma AppendIfAbsentFacts(list: seq<string>, x: string)
    ensures forall y :: y in AppendIfAbsent(list, x) <==> y in list || y == x
    ensures AppendIfAbsent(AppendIfAbsent(list, x), x) == AppendIfAbsent(list, x)
    ensures Distinct(list) ==> Distinct(AppendIfAbsent(list, x))
  {
  }

  /** Removal deletes every copy of the element and nothing else. */
  lemma RemoveAllMembers(list: seq<string>, x: string)
    ensures forall y :: y in RemoveAll(list, x) <==> y in list && y != x
  {
    var r := RemoveAll(list, x);
    FilterMembers(list, Differs(x));
    forall y | y in r
      ensures y in list && y != x
    {
      var i :| 0 <= i < |r| && r[i] == y;
      assert Differs(x)(r[i]);
    }
    forall y | y in list && y != x
      ensures y in r
    {
      var n :| 0 <= n < |list| && list[n] == y;
      assert Differs(x)(list[n]);
    }
  }

  /** Removing an absent element changes nothing. */
  lemma RemoveAbsentIsIdentity(list: seq<string>, x: string)
    requires x !in list
    ensures RemoveAll(list, x) == list
  {
    forall n | 0 <= n < |list|
      ensures Differs(x)(list[n])
    {
      assert list[n] in list;
    }
    FilterAll(list, Differs(x));
  }

  /** Toggling an absent element twice gives the list back. */
  lemma ToggleTwiceFromAbsent(list: seq<string>, x: string)
    requires x !in list
    ensures Toggle(Toggle(list, x), x) == list
  {
    assert x in list + [x];
    FilterAppend(list, [x], Differs(x));
    RemoveAbsentIsIdentity(list, x);
    assert [x][1..] == [];
  }

  /** The first toggle from "every source" leaves only the toggled source enabled. */
  lemma FirstSourceToggleEnablesOnlyIt(prefs: UserPreferences, sourceId: string, other: string)
    requires prefs.enabledSources == []
    ensures var after := Some(prefs.(enabledSources := ToggleSourceList(prefs.enabledSources, sourceId)));
            IsSourceEnabled(after, other) <==> other == sourceId
  {
  }

  /** On a non-empty list, toggling flips the source between enabled and disabled,
      unless it removes the last entry: the empty list then enables every source. */
  lemma LaterSourceToggle(prefs: UserPreferences, sourceId: string, other: string)
    requires prefs.enabledSources != []
    ensures var list := ToggleSourceList(prefs.enabledSources, sourceId);
            var after := Some(prefs.(enabledSources := list));
            && (list == [] ==> IsSourceEnabled(after, other))
            && (list != [] ==> (IsSourceEnabled(after, sourceId) <==> !IsSourceEnabled(Some(prefs), sourceId)))
            && (list != [] && other != sourceId ==> (IsSourceEnabled(after, other) <==> IsSourceEnabled(Some(prefs), other)))
  {
  }

  /** The list becomes empty exactly when the toggle removes the only source it held. */
  lemma SourceListEmptiesOnlyOnLastRemoval(enabled: seq<string>, sourceId: string)
    requires enabled != []
    ensures ToggleSourceList(enabled, sourceId) == [] <==> forall i :: 0 <= i < |enabled| ==> enabled[i] == sourceId
  {
    RemoveAllMembers(enabled, sourceId);
    var list := ToggleSourceList(enabled, sourceId);
    if list == [] {
      forall i | 0 <= i < |enabled|
        ensures enabled[i] == sourceId
      {
        assert enabled[i] in enabled;
        assert enabled[i] !in list;
      }
    }
    if forall i :: 0 <= i < |enabled| ==> enabled[i] == sourceId {
      assert enabled[0] in enabled;
      if list != [] {
        assert list[0] in list;
      }
    }
  }

  /** After markAsRead the article is read, and no other article changes. */
  lemma MarkedArticleIsRead(prefs: UserPreferences, articleId: string, other: string)
    ensures var after := Some(prefs.(readArticles := AppendIfAbsent(prefs.readArticles, articleId)));
            && IsRead(after, articleId)
            && (other != articleId ==> (IsRead(after, other) <==> IsRead(Some(prefs), other)))
  {
  }

  /** toggleSaved flips whether the article is saved, and no other article changes. */
  lemma ToggledArticleFlipsSaved(prefs: UserPreferences, articleId: string, other: string)
    ensures var after := Some(prefs.(savedArticles := Toggle(prefs.savedArticles, articleId)));
            && (IsSaved(after, articleId) <==> !IsSaved(Some(prefs), articleId))
            && (other != articleId ==> (IsSaved(after, other) <==> IsSaved(Some(prefs), other)))
  {
  }

  /** muteTopic mutes the topic and unmuteTopic unmutes it; no other topic changes. */
  lemma MuteThenCheck(prefs: UserPreferences, topic: string, other: string)
    ensures var muted := Some(prefs.(mutedTopics := AppendIfAbsent(prefs.mutedTopics, topic)));
            var unmuted := Some(prefs.(mutedTopics := RemoveAll(prefs.mutedTopics, topic)));
            && IsTopicMuted(muted, topic) && !IsTopicMuted(unmuted, topic)
            && (other != topic ==> (IsTopicMuted(muted, other) <==> IsTopicMuted(Some(prefs), other)))
            && (other != topic ==> (IsTopicMuted(unmuted, other) <==> IsTopicMuted(Some(prefs), other)))
  {
    RemoveAllMembers(prefs.mutedTopics, topic);
  }

  /** With no preferences loaded, nothing is read, saved or muted and every source is
      shown. */
  lemma ChecksWithoutPreferences(id: string)
    ensures !IsRead(None, id) && !IsSaved(None, id) && !IsTopicMuted(None, id) && IsSourceEnabled(None, id)
  {
  }

  /** A merge changes only the fields it is given, besides the stamp. */
  lemma MergeKeepsUnsetFields(prefs: UserPreferences, updates: PreferencesUpdate, now: int)
    ensures var r := Merge(prefs, updates, now);
            && (updates.enabledSources.None? ==> r.enabledSources == prefs.enabledSources)
            && (updates.mutedTopics.None? ==> r.mutedTopics == prefs.mutedTopics)
            && (updates.readArticles.None? ==> r.readArticles == prefs.readArticles)
            && (updates.savedArticles.None? ==> r.savedArticles == prefs.savedArticles)
            && (updates.aiSummariesEnabled.None? ==> r.aiSummariesEnabled == prefs.aiSummariesEnabled)
            && (updates.readArticles.Some? ==> r.readArticles == updates.readArticles.value)
            && (updates.mutedTopics.Some? ==> r.mutedTopics == updates.mutedTopics.value)
  {
  }
}
