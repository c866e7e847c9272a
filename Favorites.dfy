/**
 * The favorites store of favorites/favorite_manager.go: a per-user cache of saved records,
 * filled lazily from one file per user and written back to that file after every change.
 * The data directory is modelled as a map from file path to what the file holds; a write
 * that fails leaves the file as it was, and the in-memory change stays.
 */
module Favorites {
  import opened Wrappers
  import opened Text

  /** models.Favorite as AddFavorite fills it in. `kind` is the content type ("quote", "joke",
      "fact", "image", "general"); `savedAt` is the Unix time of the save. */
  datatype Favorite = Favorite(
    id: string, userID: int, kind: string, content: string, author: string,
    setup: string, punchline: string, imageURL: string, savedAt: int)

  /** What a path in the data directory holds; an absent path is a missing file. */
  datatype StoredFile = Unreadable | Malformed | Records(favorites: seq<Favorite>)

  /** The cache and the data directory together. */
  datatype Store = Store(cache: map<int, seq<Favorite>>, files: map<string, StoredFile>)

  /** The directory NewFavoriteManager uses. */
  const DataDir := "user_data"

  const UnknownActionReply := "Unknown favorite action."
  const RemovedReply := "Removed from favorites!"
  const NotFoundReply := "Favorite not found."

  // ---------------------------------------------------------------------------------------
  // Identifiers and paths
  // ---------------------------------------------------------------------------------------

  /** generateID: the hex encoding of four random bytes. */
  function GenerateID(randomBytes: seq<uint8>): (id: string)
    requires |randomBytes| == 4
    ensures |id| == 8
    ensures forall i :: 0 <= i < |id| ==> IsLowerHex(id[i])
    ensures HexDecode(id) == Some(randomBytes)
  {
    HexRoundTrip(randomBytes);
    HexEncode(randomBytes)
  }

  /** getUserFilePath: `<dataDir>/user_<id>_favorites.json`. */
  function UserFilePath(dataDir: string, userID: int): (path: string)
    ensures |path| > |dataDir| + 1 && path[..|dataDir| + 1] == dataDir + "/"
    ensures |path| >= 15 && path[|path| - 15..] == "_favorites.json"
  {
    dataDir + "/user_" + FormatInt(userID) + "_favorites.json"
  }

  /** Different users have different files. */
  lemma UserFilePathInjective(dataDir: string, a: int, b: int)
    requires UserFilePath(dataDir, a) == UserFilePath(dataDir, b)
    ensures a == b
  {
    var p := UserFilePath(dataDir, a);
    var prefix := dataDir + "/user_";
    var suffix := "_favorites.json";
    var fa, fb := FormatInt(a), FormatInt(b);
    assert |fa| == |fb|;
    assert fa == p[|prefix|..|prefix| + |fa|];
    assert fb == p[|prefix|..|prefix| + |fb|];
    FormatIntInjective(a, b);
  }

  // ---------------------------------------------------------------------------------------
  // Loading and saving
  // ---------------------------------------------------------------------------------------

  /** loadUserFavorites: the records of the user's file, or nothing when the file is missing,
      cannot be read or does not parse. */
  function LoadFile(files: map<string, StoredFile>, path: string): (favs: seq<Favorite>)
    ensures path in files && files[path].Records? ==> favs == files[path].favorites
    ensures path !in files || !files[path].Records? ==> favs == []
  {
    if path in files then
      match files[path]
      case Records(favs) => favs
      case _ => []
    else []
  }

  /** saveUserFavorites: the file is overwritten with the list when the write succeeds. */
  function SaveFile(files: map<string, StoredFile>, path: string, favs: seq<Favorite>, writeOk: bool): (r: map<string, StoredFile>)
    ensures writeOk ==> path in r && r[path] == Records(favs)
    ensures !writeOk ==> r == files
    ensures forall p :: p != path ==> (p in r <==> p in files) && (p in r ==> r[p] == files[p])
  {
    if writeOk then files[path := Records(favs)] else files
  }

  /** Load-if-absent: a user not yet in the cache gets the contents of their file; a cached
      user is left alone. */
  function Loaded(st: Store, dataDir: string, userID: int): (r: Store)
    ensures userID in r.cache && r.files == st.files
    ensures userID in st.cache ==> r == st
    ensures userID !in st.cache ==> r.cache[userID] == LoadFile(st.files, UserFilePath(dataDir, userID))
    ensures forall u :: u != userID ==> (u in r.cache <==> u in st.cache)
    ensures forall u :: u != userID && u in st.cache ==> r.cache[u] == st.cache[u]
  {
    if userID in st.cache then st
    else st.(cache := st.cache[userID := LoadFile(st.files, UserFilePath(dataDir, userID))])
  }

  /** The store after AddFavorite appends `fav` to the user's list and saves the list. */
  function AfterAdd(st: Store, dataDir: string, userID: int, fav: Favorite, writeOk: bool): Store {
    var loaded := Loaded(st, dataDir, userID);
    var list := loaded.cache[userID] + [fav];
    Store(loaded.cache[userID := list], SaveFile(loaded.files, UserFilePath(dataDir, userID), list, writeOk))
  }

  /** The store after RemoveFavorite: the first record with the id is dropped and the list is
      saved; when no record has the id nothing is saved. */
  function AfterRemove(st: Store, dataDir: string, userID: int, favoriteID: string, writeOk: bool): Store {
    var loaded := Loaded(st, dataDir, userID);
    var list := loaded.cache[userID];
    if HasFavorite(list, favoriteID) then
      var rest := RemoveFirst(list, favoriteID);
      Store(loaded.cache[userID := rest], SaveFile(loaded.files, UserFilePath(dataDir, userID), rest, writeOk))
    else loaded
  }

  // ---------------------------------------------------------------------------------------
  // Removing by id
  // ---------------------------------------------------------------------------------------

  /** Some record in the list has the id. */
  predicate HasFavorite(favs: seq<Favorite>, id: string) {
    exists i :: 0 <= i < |favs| && favs[i].id == id
  }

  /** The list without its first record carrying `id`. */
  function RemoveFirst(favs: seq<Favorite>, id: string): seq<Favorite> {
    if favs == [] then []
    else if favs[0].id == id then favs[1..]
    else [favs[0]] + RemoveFirst(favs[1..], id)
  }

  /** When position `i` holds the first record with the id, removing it is the splice that
      drops exactly that position and keeps the others in order. */
  lemma {:induction false} RemoveFirstAt(favs: seq<Favorite>, id: string, i: nat)
    requires i < |favs| && favs[i].id == id
    requires forall j :: 0 <= j < i ==> favs[j].id != id
    ensures RemoveFirst(favs, id) == favs[..i] + favs[i + 1..]
  {
    if i > 0 {
      RemoveFirstAt(favs[1..], id, i - 1);
      assert favs[1..][..i - 1] == favs[1..i];
      assert favs == [favs[0]] + favs[1..];
    }
  }

  /** Removing an id that no record has leaves the list unchanged. */
  lemma {:induction false} RemoveAbsent(favs: seq<Favorite>, id: string)
    requires !HasFavorite(favs, id)
    ensures RemoveFirst(favs, id) == favs
  {
    if favs != [] {
      assert favs[0].id != id;
      assert !HasFavorite(favs[1..], id) by {
        forall j | 0 <= j < |favs| - 1 ensures favs[1..][j].id != id {
          assert favs[1..][j] == favs[j + 1];
        }
      }
      RemoveAbsent(favs[1..], id);
    }
  }

  // ---------------------------------------------------------------------------------------
  // Callback routing
  // ---------------------------------------------------------------------------------------

  datatype FavoriteAction = AddAction | RemoveAction(id: string) | UnknownAction

  /** IsFavoriteCallback: longer than nine characters and prefixed by "favorite_". */
  predicate IsFavoriteCallback(data: string) {
    |data| > 9 && data[..9] == "favorite_"
  }

  /** The routing of HandleFavoriteCallback: exactly "favorite_add" adds; "favorite_remove_"
      followed by at least one character removes that suffix; anything else is unknown. */
  function ParseFavoriteAction(data: string): (action: FavoriteAction)
    ensures action == AddAction <==> data == "favorite_add"
    ensures action.RemoveAction? ==> "favorite_remove_" + action.id == data && action.id != ""
  {
    if data == "favorite_add" then AddAction
    else if |data| > 16 && data[..16] == "favorite_remove_" then RemoveAction(data[16..])
    else UnknownAction
  }

  /** The remove button built for a record's id routes back to removing that id. */
  lemma RemovePayloadRoundTrip(id: string)
    requires id != ""
    ensures ParseFavoriteAction("favorite_remove_" + id) == RemoveAction(id)
  {
    var data := "favorite_remove_" + id;
    assert data[..16] == "favorite_remove_" && data[16..] == id;
  }

  /** Every routed action comes from a favorite callback. */
  lemma RoutedActionsAreFavoriteCallbacks(data: string)
    requires ParseFavoriteAction(data) != UnknownAction
    ensures IsFavoriteCallback(data)
  {
    if data != "favorite_add" {
      assert data[..9] == data[..16][..9];
    }
  }

  // ---------------------------------------------------------------------------------------
  // Properties of the store transitions
  // ---------------------------------------------------------------------------------------

  /** Adding appends exactly one new record, with the given fields, to the user's list. */
  lemma AddAppends(st: Store, dataDir: string, userID: int, fav: Favorite, writeOk: bool)
    ensures var after := AfterAdd(st, dataDir, userID, fav, writeOk);
      after.cache[userID] == Loaded(st, dataDir, userID).cache[userID] + [fav]
      && |after.cache[userID]| == |Loaded(st, dataDir, userID).cache[userID]| + 1
  {
  }

  /** After a successful save the user's file holds the in-memory list, so a restarted manager
      with an empty cache reads back the same list. */
  lemma SavedListSurvivesRestart(st: Store, dataDir: string, userID: int, favs: seq<Favorite>)
    ensures var files := SaveFile(st.files, UserFilePath(dataDir, userID), favs, true);
      Loaded(Store(map[], files), dataDir, userID).cache[userID] == favs
  {
  }

  /** A successful add leaves the user's file holding the new in-memory list, which a restarted
      manager reads back; a failed add keeps the appended list in memory and the files as they
      were. */
  lemma AddPersists(st: Store, dataDir: string, userID: int, fav: Favorite, writeOk: bool)
    ensures var a := AfterAdd(st, dataDir, userID, fav, writeOk);
      var path := UserFilePath(dataDir, userID);
      && (writeOk ==> LoadFile(a.files, path) == a.cache[userID])
      && (writeOk ==> Loaded(Store(map[], a.files), dataDir, userID).cache[userID] == a.cache[userID])
      && (!writeOk ==> a.files == st.files && a.cache[userID] == Loaded(st, dataDir, userID).cache[userID] + [fav])
  {
  }

  /** A successful removal of a held id leaves the user's file holding the shortened list, so
      the removal survives a restart; a failed one keeps the shortened list in memory and the
      files as they were. */
  lemma RemovePersists(st: Store, dataDir: string, userID: int, favoriteID: string, writeOk: bool)
    requires HasFavorite(Loaded(st, dataDir, userID).cache[userID], favoriteID)
    ensures var a := AfterRemove(st, dataDir, userID, favoriteID, writeOk);
      var path := UserFilePath(dataDir, userID);
      && (writeOk ==> LoadFile(a.files, path) == a.cache[userID])
      && (writeOk ==> Loaded(Store(map[], a.files), dataDir, userID).cache[userID] == a.cache[userID])
      && (!writeOk ==> a.files == st.files)
      && (!writeOk ==> a.cache[userID] == RemoveFirst(Loaded(st, dataDir, userID).cache[userID], favoriteID))
  {
  }

  /** Add and remove touch only the acting user: every other user's cache entry and file are
      as before. */
  lemma OtherUsersUntouched(st: Store, dataDir: string, userID: int, other: int,
                            fav: Favorite, favoriteID: string, writeOk: bool)
    requires other != userID
    ensures var path := UserFilePath(dataDir, other);
      && (var a := AfterAdd(st, dataDir, userID, fav, writeOk);
          (other in a.cache <==> other in st.cache)
          && (other in st.cache ==> a.cache[other] == st.cache[other])
          && (path in a.files <==> path in st.files)
          && (path in st.files ==> a.files[path] == st.files[path])
          && LoadFile(a.files, path) == LoadFile(st.files, path))
      && (var r := AfterRemove(st, dataDir, userID, favoriteID, writeOk);
          (other in r.cache <==> other in st.cache)
          && (other in st.cache ==> r.cache[other] == st.cache[other])
          && (path in r.files <==> path in st.files)
          && (path in st.files ==> r.files[path] == st.files[path])
          && LoadFile(r.files, path) == LoadFile(st.files, path))
  {
    if UserFilePath(dataDir, other) == UserFilePath(dataDir, userID) {
      UserFilePathInjective(dataDir, other, userID);
    }
  }

  /** Removing an id the user's list holds drops its first occurrence; removing an id it does not
      hold changes nothing but the cache load, and writes no file. */
  lemma RemoveOutcome(st: Store, dataDir: string, userID: int, favoriteID: string, writeOk: bool)
    ensures var loaded := Loaded(st, dataDir, userID);
      var after := AfterRemove(st, dataDir, userID, favoriteID, writeOk);
      && (!HasFavorite(loaded.cache[userID], favoriteID) ==> after == loaded && after.files == st.files)
      && (HasFavorite(loaded.cache[userID], favoriteID) ==>
            |after.cache[userID]| == |loaded.cache[userID]| - 1)
  {
    var list := Loaded(st, dataDir, userID).cache[userID];
    if HasFavorite(list, favoriteID) {
      RemovePresentLength(list, favoriteID);
    }
  }

  /** Removing an id the list holds shortens it by exactly one. */
  lemma {:induction false} RemovePresentLength(favs: seq<Favorite>, id: string)
    requires HasFavorite(favs, id)
    ensures |RemoveFirst(favs, id)| == |favs| - 1
  {
    if favs[0].id != id {
      var i :| 0 <= i < |favs| && favs[i].id == id;
      assert favs[1..][i - 1] == favs[i];
      RemovePresentLength(favs[1..], id);
    }
  }

  /** Reading a user's favorites twice in a row loads the file at most once: the second read
      finds the cache entry and returns the same list. */
  lemma ListIsIdempotent(st: Store, dataDir: string, userID: int)
    ensures Loaded(Loaded(st, dataDir, userID), dataDir, userID) == Loaded(st, dataDir, userID)
  {
  }

  /** The favorite manager: the cache, the directory it persists to and the files in it. */
  class FavoriteManager {
    var favorites: map<int, seq<Favorite>>
    var files: map<string, StoredFile>
    const dataDir: string

    /** NewFavoriteManager: an empty cache over an existing data directory. */
    constructor (existingFiles: map<string, StoredFile>)
      ensures favorites == map[] && files == existingFiles && dataDir == DataDir
    {
      favorites := map[];
      files := existingFiles;
      dataDir := DataDir;
    }

    /** The cache and the files as one value. */
    function State(): Store
      reads this
    {
      Store(favorites, files)
    }

    /** The load-if-absent step at the start of every operation. */
    method LoadIfAbsent(userID: int)
      modifies this`favorites
      ensures State() == Loaded(old(State()), dataDir, userID)
    {
      if userID !in favorites {
        favorites := favorites[userID := LoadFile(files, UserFilePath(dataDir, userID))];
      }
    }

    /** saveUserFavorites; `writeOk` says whether the file system accepted the write. */
    method SaveUserFavorites(userID: int, favs: seq<Favorite>, writeOk: bool) returns (failed: bool)
      modifies this`files
      ensures files == SaveFile(old(files), UserFilePath(dataDir, userID), favs, writeOk)
      ensures failed == !writeOk
    {
      files := SaveFile(files, UserFilePath(dataDir, userID), favs, writeOk);
      failed := !writeOk;
    }

    /** AddFavorite: `randomBytes` are the four bytes read from crypto/rand and `now` the
        clock; returns the new record's id. A failed save keeps the in-memory addition. */
    method AddFavorite(userID: int, kind: string, content: string, author: string, setup: string,
                       punchline: string, imageURL: string,
                       randomBytes: seq<uint8>, now: int, writeOk: bool) returns (id: string)
      requires |randomBytes| == 4
      modifies this
      ensures id == GenerateID(randomBytes)
      ensures State() == AfterAdd(old(State()), dataDir, userID,
                                  Favorite(id, userID, kind, content, author, setup, punchline, imageURL, now), writeOk)
    {
      LoadIfAbsent(userID);
      id := GenerateID(randomBytes);
      var favorite := Favorite(id, userID, kind, content, author, setup, punchline, imageURL, now);
      favorites := favorites[userID := favorites[userID] + [favorite]];
      var _ := SaveUserFavorites(userID, favorites[userID], writeOk);
    }

    /** GetUserFavorites: the user's list (a value, so callers cannot change the cache through it). */
    method GetUserFavorites(userID: int) returns (result: seq<Favorite>)
      modifies this`favorites
      ensures State() == Loaded(old(State()), dataDir, userID)
      ensures result == favorites[userID]
    {
      LoadIfAbsent(userID);
      result := favorites[userID];
    }

    /** RemoveFavorite: scan for the first record with the id, splice it out and save. */
    method RemoveFavorite(userID: int, favoriteID: string, writeOk: bool) returns (removed: bool)
      modifies this
      ensures removed == HasFavorite(Loaded(old(State()), dataDir, userID).cache[userID], favoriteID)
      ensures State() == AfterRemove(old(State()), dataDir, userID, favoriteID, writeOk)
    {
      LoadIfAbsent(userID);
      var list := favorites[userID];
      var i := 0;
      while i < |list|
        invariant 0 <= i <= |list|
        invariant forall j :: 0 <= j < i ==> list[j].id != favoriteID
        invariant State() == Loaded(old(State()), dataDir, userID)
      {
        if list[i].id == favoriteID {
          RemoveFirstAt(list, favoriteID, i);
          favorites := favorites[userID := list[..i] + list[i + 1..]];
          var _ := SaveUserFavorites(userID, favorites[userID], writeOk);
          return true;
        }
        i := i + 1;
      }
      RemoveAbsent(list, favoriteID);
      return false;
    }

    /** GetFavoriteCount: the length of the user's list. */
    method GetFavoriteCount(userID: int) returns (count: nat)
      modifies this`favorites
      ensures State() == Loaded(old(State()), dataDir, userID)
      ensures count == |favorites[userID]|
    {
      LoadIfAbsent(userID);
      count := |favorites[userID]|;
    }

    /** HandleFavoriteCallback: route the callback data to add or remove and phrase the reply. */
    method HandleFavoriteCallback(data: string, userID: int, kind: string, content: string,
                                  author: string, setup: string, punchline: string, imageURL: string,
                                  randomBytes: seq<uint8>, now: int, writeOk: bool) returns (reply: string)
      requires |randomBytes| == 4
      modifies this
      ensures match ParseFavoriteAction(data)
        case AddAction =>
          && reply == "Added to favorites! (ID: " + GenerateID(randomBytes) + ")"
          && State() == AfterAdd(old(State()), dataDir, userID,
               Favorite(GenerateID(randomBytes), userID, kind, content, author, setup, punchline, imageURL, now), writeOk)
        case RemoveAction(id) =>
          && reply == (if HasFavorite(Loaded(old(State()), dataDir, userID).cache[userID], id)
                       then RemovedReply else NotFoundReply)
          && State() == AfterRemove(old(State()), dataDir, userID, id, writeOk)
        case UnknownAction =>
          reply == UnknownActionReply && State() == old(State())
    {
      match ParseFavoriteAction(data)
      case AddAction =>
        var id := AddFavorite(userID, kind, content, author, setup, punchline, imageURL, randomBytes, now, writeOk);
        reply := "Added to favorites! (ID: " + id + ")";
      case RemoveAction(favoriteID) =>
        var removed := RemoveFavorite(userID, favoriteID, writeOk);
        reply := if removed then RemovedReply else NotFoundReply;
      case UnknownAction =>
        reply := UnknownActionReply;
    }
  }
}
