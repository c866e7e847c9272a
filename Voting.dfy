/**
 * The in-memory vote store of voting/vote_manager.go: votes are kept per key
 * `contentType_messageID`, and each user has at most one live vote per key
 * (a later vote replaces the earlier one).
 */
module Voting {
  import opened Wrappers
  import opened Text

  /** models.Vote: `up` is true for a thumbs-up and false for a thumbs-down. */
  datatype Vote = Vote(messageID: int, userID: int, up: bool)

  /** What HandleVote reads out of a callback payload `vote_{type}_{messageID}_{up|down}`. */
  datatype VoteRequest = VoteRequest(contentType: string, messageID: int, up: bool)

  const InvalidVoteReply := "Invalid vote data"
  const UpVoteReply := "Thanks for the thumbs up! \U{1F44D}"
  const DownVoteReply := "Thanks for the feedback! \U{1F44E}"

  // ---------------------------------------------------------------------------------------
  // Payloads
  // ---------------------------------------------------------------------------------------

  /** The callback data of the thumbs-up (`up`) or thumbs-down button built by
      CreateVotingKeyboard: `vote_%s_%d_up` or `vote_%s_%d_down`. */
  function VotePayload(contentType: string, messageID: int, up: bool): string {
    "vote_" + contentType + "_" + FormatInt(messageID) + (if up then "_up" else "_down")
  }

  /** The payload parsing at the top of HandleVote: split on `_`; fewer than four parts is
      invalid; otherwise part 1 is the content type, part 2 is scanned as `%d` (0 when it does
      not scan) and the vote is up exactly when part 3 is "up". Part 0 is not looked at. */
  function ParseVote(data: string): (r: Option<VoteRequest>)
    ensures r.None? <==> |Split(data, "_")| < 4
    ensures r.Some? ==> !Contains(r.value.contentType, "_")
  {
    var parts := Split(data, "_");
    SplitPiecesFree(data, "_");
    if |parts| < 4 then None
    else
      var messageID := match ScanInt(parts[2]) case Some(n) => n case None => 0;
      Some(VoteRequest(parts[1], messageID, parts[3] == "up"))
  }

  /** The map key `%s_%d` under which votes for one message are kept. */
  function VoteKey(contentType: string, messageID: int): string {
    contentType + "_" + FormatInt(messageID)
  }

  /** The acknowledgement HandleVote returns for a parsed payload. */
  function VoteReply(up: bool): string {
    if up then UpVoteReply else DownVoteReply
  }

  /** IsVoteCallback: longer than five characters and starting with "vote_". */
  predicate IsVoteCallback(data: string) {
    |data| > 5 && data[..5] == "vote_"
  }

  /** Every payload the keyboard builds is recognised as a vote, and the bare prefix is not. */
  lemma PayloadIsVoteCallback(contentType: string, messageID: int, up: bool)
    ensures IsVoteCallback(VotePayload(contentType, messageID, up))
    ensures !IsVoteCallback("vote_")
  {
    assert VotePayload(contentType, messageID, up)[..5] == "vote_";
  }

  /** Payload round trip: when the content type contains no `_` and the message id fits a
      64-bit int, parsing a keyboard payload gives back the content type, the id and the
      direction. */
  lemma ParseVotePayload(contentType: string, messageID: int, up: bool)
    requires '_' !in contentType
    requires InInt64(messageID)
    ensures ParseVote(VotePayload(contentType, messageID, up)) == Some(VoteRequest(contentType, messageID, up))
  {
    var id := FormatInt(messageID);
    var dir := if up then "up" else "down";
    assert '_' !in id by {
      forall i | 0 <= i < |id| ensures id[i] != '_' { }
    }
    var data := VotePayload(contentType, messageID, up);
    assert data == "vote" + ['_'] + (contentType + ['_'] + (id + ['_'] + dir));
    SplitPayload(contentType, id, dir);
    var parts := Split(data, "_");
    assert parts == ["vote", contentType, id, dir];
    ScanFormatInt(messageID);
    assert ScanInt(parts[2]) == Some(messageID);
    assert (parts[3] == "up") == up;
  }

  /** The four `_`-separated parts of a payload whose fields contain no `_`. */
  lemma SplitPayload(contentType: string, id: string, dir: string)
    requires '_' !in contentType && '_' !in id && '_' !in dir
    ensures Split("vote" + ['_'] + (contentType + ['_'] + (id + ['_'] + dir)), ['_']) == ["vote", contentType, id, dir]
  {
    var t3 := id + ['_'] + dir;
    var t2 := contentType + ['_'] + t3;
    var data := "vote" + ['_'] + t2;
    SplitAround("vote", '_', t2);
    SplitAround(contentType, '_', t3);
    SplitAround(id, '_', dir);
    SplitWithout(dir, '_');
    var p3 := Split(t3, ['_']);
    var p2 := Split(t2, ['_']);
    assert p3 == [id, dir];
    assert p2 == [contentType, id, dir];
    assert Split(data, ['_']) == ["vote", contentType, id, dir];
  }

  /** A message id part with no digit in it leaves the id at 0, so the key ends in `_0`. */
  lemma NonNumericIdKeysZero(data: string)
    requires |Split(data, "_")| >= 4
    requires forall i :: 0 <= i < |Split(data, "_")[2]| ==> !IsDigit(Split(data, "_")[2][i])
    ensures ParseVote(data).Some?
    ensures VoteKey(ParseVote(data).value.contentType, ParseVote(data).value.messageID)
            == Split(data, "_")[1] + "_0"
  {
    ScanIntNoDigits(Split(data, "_")[2]);
  }

  // ---------------------------------------------------------------------------------------
  // The vote list under one key
  // ---------------------------------------------------------------------------------------

  /** The list stored under `key`; a key never voted on reads as the empty list. */
  function VotesAt(votes: map<string, seq<Vote>>, key: string): seq<Vote> {
    if key in votes then votes[key] else []
  }

  /** The votes of `votes` not cast by `userID`, in their original order. */
  function WithoutUser(votes: seq<Vote>, userID: int): seq<Vote> {
    if votes == [] then []
    else
      var last := votes[|votes| - 1];
      WithoutUser(votes[..|votes| - 1], userID) + (if last.userID != userID then [last] else [])
  }

  /** The list after `vote` is recorded: the voter's earlier votes are dropped and the new vote
      goes last. */
  function RecordVote(votes: seq<Vote>, vote: Vote): seq<Vote> {
    WithoutUser(votes, vote.userID) + [vote]
  }

  /** The number of votes cast by `userID`. */
  function VotesBy(votes: seq<Vote>, userID: int): nat {
    if votes == [] then 0
    else VotesBy(votes[..|votes| - 1], userID) + (if votes[|votes| - 1].userID == userID then 1 else 0)
  }

  /** Each user has at most one vote in the list. */
  ghost predicate AtMostOneVoteEach(votes: seq<Vote>) {
    forall userID :: VotesBy(votes, userID) <= 1
  }

  /** The number of thumbs-up votes. */
  function UpCount(votes: seq<Vote>): nat {
    if votes == [] then 0 else UpCount(votes[..|votes| - 1]) + (if votes[|votes| - 1].up then 1 else 0)
  }

  /** The number of thumbs-down votes. */
  function DownCount(votes: seq<Vote>): nat {
    if votes == [] then 0 else DownCount(votes[..|votes| - 1]) + (if votes[|votes| - 1].up then 0 else 1)
  }

  /** Every vote is counted exactly once, as up or as down. */
  lemma {:induction false} TallyCoversAll(votes: seq<Vote>)
    ensures UpCount(votes) + DownCount(votes) == |votes|
  {
    if votes != [] {
      TallyCoversAll(votes[..|votes| - 1]);
    }
  }

  /** Removing a user's votes keeps exactly the other users' votes, and distributes over
      concatenation, so the kept votes stay in their original relative order. */
  lemma {:induction false} WithoutUserConcat(a: seq<Vote>, b: seq<Vote>, userID: int)
    ensures WithoutUser(a + b, userID) == WithoutUser(a, userID) + WithoutUser(b, userID)
    decreases |b|
  {
    if b == [] {
      assert a + b == a;
    } else {
      var b' := b[..|b| - 1];
      WithoutUserConcat(a, b', userID);
      assert (a + b)[..|a + b| - 1] == a + b';
      assert (a + b)[|a + b| - 1] == b[|b| - 1];
    }
  }

  /** A vote survives the removal of `userID`'s votes exactly when it was there and was cast by
      somebody else. */
  lemma {:induction false} WithoutUserMembers(votes: seq<Vote>, userID: int, v: Vote)
    ensures v in WithoutUser(votes, userID) <==> v in votes && v.userID != userID
  {
    if votes != [] {
      var init := votes[..|votes| - 1];
      WithoutUserMembers(init, userID, v);
      assert votes == init + [votes[|votes| - 1]];
    }
  }

  /** A list in which `userID` has no vote is left as it is. */
  lemma {:induction false} WithoutAbsentUser(votes: seq<Vote>, userID: int)
    requires VotesBy(votes, userID) == 0
    ensures WithoutUser(votes, userID) == votes
  {
    if votes != [] {
      WithoutAbsentUser(votes[..|votes| - 1], userID);
    }
  }

  /** After the removal, `userID` has no vote left and every other user keeps as many as before. */
  lemma {:induction false} WithoutUserCounts(votes: seq<Vote>, userID: int, other: int)
    ensures VotesBy(WithoutUser(votes, userID), userID) == 0
    ensures other != userID ==> VotesBy(WithoutUser(votes, userID), other) == VotesBy(votes, other)
  {
    if votes != [] {
      var init := votes[..|votes| - 1];
      var last := votes[|votes| - 1];
      WithoutUserCounts(init, userID, other);
      var kept := if last.userID != userID then [last] else [];
      assert [last][..0] == [];
      VotesByConcat(WithoutUser(init, userID), kept, userID);
      VotesByConcat(WithoutUser(init, userID), kept, other);
    }
  }

  lemma {:induction false} VotesByConcat(a: seq<Vote>, b: seq<Vote>, userID: int)
    ensures VotesBy(a + b, userID) == VotesBy(a, userID) + VotesBy(b, userID)
    decreases |b|
  {
    if b == [] {
      assert a + b == a;
    } else {
      VotesByConcat(a, b[..|b| - 1], userID);
      assert (a + b)[..|a + b| - 1] == a + b[..|b| - 1];
      assert (a + b)[|a + b| - 1] == b[|b| - 1];
    }
  }

  /** One vote per user: after recording, the voter has exactly one vote, it is the last one
      and it has the new direction, and every other user has as many votes as before. */
  lemma RecordVoteOnePerUser(votes: seq<Vote>, vote: Vote, other: int)
    ensures var r := RecordVote(votes, vote);
      && VotesBy(r, vote.userID) == 1
      && r[|r| - 1] == vote
      && (other != vote.userID ==> VotesBy(r, other) == VotesBy(votes, other))
  {
    WithoutUserCounts(votes, vote.userID, other);
    VotesByConcat(WithoutUser(votes, vote.userID), [vote], vote.userID);
    VotesByConcat(WithoutUser(votes, vote.userID), [vote], other);
    assert [vote][..0] == [];
  }

  /** The one-vote-per-user invariant of a key's list is kept by recording a vote. */
  lemma RecordVoteKeepsInvariant(votes: seq<Vote>, vote: Vote)
    requires AtMostOneVoteEach(votes)
    ensures AtMostOneVoteEach(RecordVote(votes, vote))
  {
    forall other ensures VotesBy(RecordVote(votes, vote), other) <= 1 {
      RecordVoteOnePerUser(votes, vote, other);
    }
  }

  /** Last write wins: a second vote by the same user on the same key replaces the first, so
      the list is as if only the second vote had been cast. */
  lemma RevoteReplaces(votes: seq<Vote>, first: Vote, second: Vote)
    requires first.userID == second.userID
    ensures RecordVote(RecordVote(votes, first), second) == RecordVote(votes, second)
  {
    var u := first.userID;
    WithoutUserConcat(WithoutUser(votes, u), [first], u);
    WithoutUserCounts(votes, u, u);
    WithoutAbsentUser(WithoutUser(votes, u), u);
    assert WithoutUser([first], u) == [] by {
      assert [first][..0] == [];
    }
  }

  /** The tallies after a vote: the voter's earlier vote no longer counts and the new one
      counts once, in its own direction. */
  lemma RecordVoteTally(votes: seq<Vote>, vote: Vote)
    ensures var w := WithoutUser(votes, vote.userID);
      && UpCount(RecordVote(votes, vote)) == UpCount(w) + (if vote.up then 1 else 0)
      && DownCount(RecordVote(votes, vote)) == DownCount(w) + (if vote.up then 0 else 1)
  {
    var w := WithoutUser(votes, vote.userID);
    assert (w + [vote])[..|w + [vote]| - 1] == w;
  }

  // ---------------------------------------------------------------------------------------
  // The loops of HandleVote and GetVoteStats
  // ---------------------------------------------------------------------------------------

  /** The filtering loop of HandleVote: copy every vote not cast by `userID`. */
  method FilterOtherUsers(existing: seq<Vote>, userID: int) returns (filtered: seq<Vote>)
    ensures filtered == WithoutUser(existing, userID)
  {
    filtered := [];
    var i := 0;
    while i < |existing|
      invariant 0 <= i <= |existing|
      invariant filtered == WithoutUser(existing[..i], userID)
    {
      var v := existing[i];
      if v.userID != userID {
        filtered := filtered + [v];
      }
      assert existing[..i + 1][..i] == existing[..i];
      i := i + 1;
    }
    assert existing[..i] == existing;
  }

  /** The counting loop of GetVoteStats. */
  method CountVotes(votes: seq<Vote>) returns (upVotes: nat, downVotes: nat)
    ensures upVotes == UpCount(votes) && downVotes == DownCount(votes)
    ensures upVotes + downVotes == |votes|
  {
    upVotes, downVotes := 0, 0;
    var i := 0;
    while i < |votes|
      invariant 0 <= i <= |votes|
      invariant upVotes == UpCount(votes[..i]) && downVotes == DownCount(votes[..i])
    {
      if votes[i].up {
        upVotes := upVotes + 1;
      } else {
        downVotes := downVotes + 1;
      }
      assert votes[..i + 1][..i] == votes[..i];
      i := i + 1;
    }
    assert votes[..i] == votes;
    TallyCoversAll(votes);
  }

  /** The state transition HandleVote performs on the whole map, as a function of the payload. */
  function AfterVote(votes: map<string, seq<Vote>>, data: string, userID: int): map<string, seq<Vote>> {
    match ParseVote(data)
    case None => votes
    case Some(req) =>
      var key := VoteKey(req.contentType, req.messageID);
      votes[key := RecordVote(VotesAt(votes, key), Vote(req.messageID, userID, req.up))]
  }

  /** HandleVote changes only the payload's key, and a malformed payload changes nothing. */
  lemma AfterVoteFrame(votes: map<string, seq<Vote>>, data: string, userID: int, key: string)
    requires ParseVote(data).None? || key != VoteKey(ParseVote(data).value.contentType, ParseVote(data).value.messageID)
    ensures VotesAt(AfterVote(votes, data, userID), key) == VotesAt(votes, key)
    ensures key in AfterVote(votes, data, userID) <==> key in votes
    ensures key in votes ==> AfterVote(votes, data, userID)[key] == votes[key]
  {
  }

  /** The store keeps one vote per user per key across any vote. */
  lemma AfterVoteKeepsInvariant(votes: map<string, seq<Vote>>, data: string, userID: int)
    requires forall k :: k in votes ==> AtMostOneVoteEach(votes[k])
    ensures var after := AfterVote(votes, data, userID);
      forall k :: k in after ==> AtMostOneVoteEach(after[k])
  {
    match ParseVote(data)
    case None =>
    case Some(req) =>
      var key := VoteKey(req.contentType, req.messageID);
      RecordVoteKeepsInvariant(VotesAt(votes, key), Vote(req.messageID, userID, req.up));
  }

  /** The vote manager: the votes map guarded by a lock in the Go code (locking is not modelled). */
  class VoteManager {
    var votes: map<string, seq<Vote>>

    /** NewVoteManager: an empty store. */
    constructor ()
      ensures votes == map[]
    {
      votes := map[];
    }

    /** HandleVote: parse the payload, replace the user's vote under the payload's key and
        acknowledge in the vote's direction; a malformed payload changes nothing. */
    method HandleVote(data: string, userID: int) returns (reply: string)
      modifies this
      ensures votes == AfterVote(old(votes), data, userID)
      ensures reply == match ParseVote(data) case None => InvalidVoteReply case Some(req) => VoteReply(req.up)
    {
      var request := ParseVote(data);
      if request.None? {
        return InvalidVoteReply;
      }
      var req := request.value;
      var vote := Vote(req.messageID, userID, req.up);
      var key := VoteKey(req.contentType, req.messageID);
      var filtered := FilterOtherUsers(VotesAt(votes, key), userID);
      votes := votes[key := filtered + [vote]];
      reply := VoteReply(req.up);
    }

    /** GetVoteStats: the up and down tallies of one message; an unknown message has none. */
    method GetVoteStats(contentType: string, messageID: int) returns (upVotes: nat, downVotes: nat)
      ensures var list := VotesAt(votes, VoteKey(contentType, messageID));
        upVotes == UpCount(list) && downVotes == DownCount(list) && upVotes + downVotes == |list|
      ensures VoteKey(contentType, messageID) !in votes ==> upVotes == 0 && downVotes == 0
    {
      upVotes, downVotes := CountVotes(VotesAt(votes, VoteKey(contentType, messageID)));
    }
  }
}
