/**
 * translation/language_manager.go: the users' language preferences, kept in a map with English
 * as the default and mirrored after every change by rewriting one preferences file. The file
 * is a field holding what the file contains; whether a write succeeds is a parameter.
 */
module LanguageStore {
  import opened Translation

  /** UserLanguagePreference: one record of the preferences file. */
  datatype Preference = Preference(userID: int, language: Language)

  /** What `<dataDir>/language_preferences.json` holds. */
  datatype PrefsFile = Missing | Unreadable | Malformed | Stored(records: seq<Preference>)

  /** GetUserLanguage on a preference map: the stored language, or English for a user who has
      never chosen one. */
  function LanguageOf(prefs: map<int, Language>, userID: int): (lang: Language)
    ensures userID in prefs ==> lang == prefs[userID]
    ensures userID !in prefs ==> lang == English
  {
    if userID in prefs then prefs[userID] else English
  }

  /** Choosing a language is seen by the next lookup for that user and by no other user. */
  lemma LastChoiceWins(prefs: map<int, Language>, userID: int, lang: Language, other: int)
    ensures LanguageOf(prefs[userID := lang], userID) == lang
    ensures other != userID ==> LanguageOf(prefs[userID := lang], other) == LanguageOf(prefs, other)
  {
  }

  /** GetSupportedLanguages: the three codes with their display names. */
  function SupportedLanguages(): (langs: map<Language, string>)
    ensures langs.Keys == {English, Hindi, Tamil}
    ensures langs[English] == "English 🇺🇸"
    ensures langs[Hindi] == "हिंदी 🇮🇳"
    ensures langs[Tamil] == "தமிழ் 🇮🇳"
  {
    map[English := "English 🇺🇸", Hindi := "हिंदी 🇮🇳", Tamil := "தமிழ் 🇮🇳"]
  }

  // ---------------------------------------------------------------------------------------
  // Loading
  // ---------------------------------------------------------------------------------------

  /** The loop of loadPreferences: the records are inserted in file order, so a later record for
      a user overwrites an earlier one. */
  function InsertAll(prefs: map<int, Language>, records: seq<Preference>): map<int, Language> {
    if records == [] then prefs
    else
      var last := records[|records| - 1];
      InsertAll(prefs, records[..|records| - 1])[last.userID := last.language]
  }

  /** loadPreferences: a file that is missing, unreadable or does not parse leaves the map as it
      was; otherwise its records are inserted. */
  function AfterLoad(prefs: map<int, Language>, file: PrefsFile): map<int, Language> {
    if file.Stored? then InsertAll(prefs, file.records) else prefs
  }

  /** After loading, the users with a preference are those who had one before and those with a
      record in the file. */
  lemma {:induction false} InsertAllKeys(prefs: map<int, Language>, records: seq<Preference>)
    ensures forall u :: u in InsertAll(prefs, records) <==>
      u in prefs || exists i :: 0 <= i < |records| && records[i].userID == u
  {
    if records != [] {
      var n := |records| - 1;
      var front := records[..n];
      InsertAllKeys(prefs, front);
      forall u ensures u in InsertAll(prefs, records) <==>
        u in prefs || exists i :: 0 <= i < |records| && records[i].userID == u
      {
        if u in InsertAll(prefs, front) && u !in prefs {
          var i :| 0 <= i < |front| && front[i].userID == u;
          assert records[i].userID == u;
        }
        if exists i :: 0 <= i < |records| && records[i].userID == u {
          var i :| 0 <= i < |records| && records[i].userID == u;
          if i < n {
            assert front[i].userID == u;
          }
        }
      }
    }
  }

  /** A user without a record in the file keeps the language they had. */
  lemma {:induction false} InsertAllUntouched(prefs: map<int, Language>, records: seq<Preference>, u: int)
    requires u in prefs
    requires forall i :: 0 <= i < |records| ==> records[i].userID != u
    ensures u in InsertAll(prefs, records) && InsertAll(prefs, records)[u] == prefs[u]
  {
    if records != [] {
      var front := records[..|records| - 1];
      assert forall i :: 0 <= i < |front| ==> front[i] == records[i];
      InsertAllUntouched(prefs, front, u);
    }
  }

  /** A user with records in the file gets the language of their LAST record: later records
      overwrite earlier ones. */
  lemma {:induction false} InsertAllLastWins(prefs: map<int, Language>, records: seq<Preference>, i: nat)
    requires i < |records|
    requires forall j :: i < j < |records| ==> records[j].userID != records[i].userID
    ensures records[i].userID in InsertAll(prefs, records)
    ensures InsertAll(prefs, records)[records[i].userID] == records[i].language
  {
    var n := |records| - 1;
    if i < n {
      var front := records[..n];
      assert front[i] == records[i];
      assert forall j :: i < j < |front| ==> front[j] == records[j];
      InsertAllLastWins(prefs, front, i);
    }
  }

  // ---------------------------------------------------------------------------------------
  // Saving
  // ---------------------------------------------------------------------------------------

  /** The records savePreferences writes for a map: one record per entry, carrying that entry's
      language, in no particular order (Go map iteration order). */
  predicate Represents(records: seq<Preference>, prefs: map<int, Language>) {
    && (forall i :: 0 <= i < |records| ==> records[i].userID in prefs && prefs[records[i].userID] == records[i].language)
    && (forall u :: u in prefs ==> exists i :: 0 <= i < |records| && records[i].userID == u)
    && (forall i, j :: 0 <= i < j < |records| ==> records[i].userID != records[j].userID)
  }

  /** Save then load into a fresh, empty manager gives back the same preferences, whatever order
      the records were written in. */
  lemma SaveLoadRoundTrip(records: seq<Preference>, prefs: map<int, Language>)
    requires Represents(records, prefs)
    ensures AfterLoad(map[], Stored(records)) == prefs
  {
    InsertAllKeys(map[], records);
    var loaded := InsertAll(map[], records);
    forall u ensures u in loaded <==> u in prefs {
      if u in prefs {
        var i :| 0 <= i < |records| && records[i].userID == u;
      }
    }
    assert loaded.Keys == prefs.Keys;
    forall u | u in prefs ensures loaded[u] == prefs[u] {
      var i :| 0 <= i < |records| && records[i].userID == u;
      InsertAllLastWins(map[], records, i);
    }
  }


  /** A non-empty set has a member. */
  lemma NonEmptyHasMember(s: set<int>)
    requires s != {}
    ensures exists x :: x in s
  {
    if forall x :: x !in s {
      assert false;
    }
  }

  /** A user with a record keeps it when a record is appended, and the appended user has one. */
  lemma AppendedCovers(before: seq<Preference>, last: Preference, u: int)
    requires u == last.userID || exists i :: 0 <= i < |before| && before[i].userID == u
    ensures exists i :: 0 <= i < |before + [last]| && (before + [last])[i].userID == u
  {
    var records := before + [last];
    if u == last.userID {
      assert records[|before|].userID == u;
    } else {
      var i :| 0 <= i < |before| && before[i].userID == u;
      assert records[i] == before[i];
    }
  }

  /** The language manager: the preference map and the preferences file. */
  class LanguageManager {
    var preferences: map<int, Language>
    var file: PrefsFile

    /** NewLanguageManager: an empty map filled from the existing file. */
    constructor (existing: PrefsFile)
      ensures file == existing
      ensures preferences == AfterLoad(map[], existing)
    {
      preferences := map[];
      file := existing;
      new;
      LoadPreferences();
    }

    /** loadPreferences: insert the file's records one by one. */
    method LoadPreferences()
      modifies this`preferences
      ensures preferences == AfterLoad(old(preferences), file)
    {
      if !file.Stored? {
        return;
      }
      var records := file.records;
      var i := 0;
      while i < |records|
        invariant 0 <= i <= |records|
        invariant preferences == InsertAll(old(preferences), records[..i])
      {
        assert records[..i + 1][..i] == records[..i];
        preferences := preferences[records[i].userID := records[i].language];
        i := i + 1;
      }
      assert records[..i] == records;
    }

    /** savePreferences: build one record per map entry and write them; `writeOk` says whether
        the write succeeded. A failed write leaves the file as it was. */
    method SavePreferences(writeOk: bool) returns (failed: bool)
      modifies this`file
      ensures failed == !writeOk
      ensures writeOk ==> file.Stored? && Represents(file.records, preferences)
      ensures !writeOk ==> file == old(file)
    {
      var records: seq<Preference> := [];
      var remaining := preferences.Keys;
      while remaining != {}
        invariant remaining <= preferences.Keys && file == old(file)
        invariant forall i :: 0 <= i < |records| ==>
          records[i].userID in preferences && preferences[records[i].userID] == records[i].language
          && records[i].userID !in remaining
        invariant forall u :: u in preferences ==> u in remaining || exists i :: 0 <= i < |records| && records[i].userID == u
        invariant forall i, j :: 0 <= i < j < |records| ==> records[i].userID != records[j].userID
        decreases |remaining|
      {
        NonEmptyHasMember(remaining);
        var userID :| userID in remaining;
        ghost var before := records;
        records := records + [Preference(userID, preferences[userID])];
        remaining := remaining - {userID};
        forall u | u in preferences && u !in remaining
          ensures exists i :: 0 <= i < |records| && records[i].userID == u
        {
          AppendedCovers(before, Preference(userID, preferences[userID]), u);
        }
      }
      if writeOk {
        file := Stored(records);
      }
      failed := !writeOk;
    }

    /** SetUserLanguage: the map is updated first and the change stays even when the save
        fails; the result reports the failure. */
    method SetUserLanguage(userID: int, language: Language, writeOk: bool) returns (failed: bool)
      modifies this
      ensures preferences == old(preferences)[userID := language]
      ensures failed == !writeOk
      ensures writeOk ==> file.Stored? && Represents(file.records, preferences)
      ensures !writeOk ==> file == old(file)
    {
      preferences := preferences[userID := language];
      failed := SavePreferences(writeOk);
    }

    /** GetUserLanguage. */
    method GetUserLanguage(userID: int) returns (lang: Language)
      ensures lang == LanguageOf(preferences, userID)
    {
      lang := if userID in preferences then preferences[userID] else English;
    }
  }

  /** A successful SetUserLanguage leaves a file from which a restarted manager reads back the
      same preferences, the new choice included. */
  lemma SetSurvivesRestart(prefs: map<int, Language>, records: seq<Preference>, userID: int, lang: Language)
    requires Represents(records, prefs[userID := lang])
    ensures LanguageOf(AfterLoad(map[], Stored(records)), userID) == lang
  {
    SaveLoadRoundTrip(records, prefs[userID := lang]);
  }
}
