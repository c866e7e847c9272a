/**
 * main.go: the earlier single-file bot. Its vote handling works on a package-level `votes`
 * map, modelled here as the field of a `Bot` object; the payload format, the parsing and the
 * filtering are the same as in the vote manager and are shared with it.
 */
module LegacyBot {
  import opened Wrappers
  import opened Text
  import opened Voting

  /** Where the update loop sends a callback: to handleVote, or to the mood switch with the
      content type it will attach to the message's voting keyboard. */
  datatype CallbackRoute = VoteRoute | MoodRoute(contentType: string)

  /** The content types the mood switch of the update loop assigns. */
  const MoodContentTypes: set<string> := {"fun", "inspiring", "motivating", "casual", "unknown"}

  /** The callback branch of the update loop: a vote when longer than five characters and
      prefixed by "vote_", otherwise a mood whose content type is the data itself for the four
      known moods and "unknown" for anything else. */
  function RouteCallback(data: string): (route: CallbackRoute)
    ensures route.VoteRoute? <==> IsVoteCallback(data)
    ensures route.MoodRoute? ==> route.contentType in MoodContentTypes
    ensures route.MoodRoute? && route.contentType != "unknown" ==> route.contentType == data
    ensures data in {"fun", "inspiring", "motivating", "casual"} ==> route == MoodRoute(data)
    ensures !IsVoteCallback(data) && data !in {"fun", "inspiring", "motivating", "casual"} ==>
      route == MoodRoute("unknown")
  {
    assert |data| > 5 && data[..5] == "vote_" ==> data[0] == data[..5][0] == 'v';
    if |data| > 5 && data[..5] == "vote_" then VoteRoute
    else if data in {"fun", "inspiring", "motivating", "casual"} then MoodRoute(data)
    else MoodRoute("unknown")
  }

  /** The voting buttons of createVotingKeyboard on a message sent for a mood callback come back
      as votes, and parse to that message's content type, id and direction. */
  lemma MoodVotesRoundTrip(data: string, messageID: int, up: bool)
    requires !IsVoteCallback(data)
    requires InInt64(messageID)
    ensures RouteCallback(data).MoodRoute?
    ensures var payload := VotePayload(RouteCallback(data).contentType, messageID, up);
      && RouteCallback(payload) == VoteRoute
      && ParseVote(payload) == Some(VoteRequest(RouteCallback(data).contentType, messageID, up))
  {
    var contentType := RouteCallback(data).contentType;
    assert '_' !in contentType;
    PayloadIsVoteCallback(contentType, messageID, up);
    ParseVotePayload(contentType, messageID, up);
  }

  /** The process state of main.go that the model covers: the package-level votes map. */
  class Bot {
    var votes: map<string, seq<Vote>>

    constructor ()
      ensures votes == map[]
    {
      votes := map[];
    }

    /** handleVote: the same transition as the vote manager's HandleVote. */
    method HandleVote(data: string, userID: int) returns (reply: string)
      modifies this
      ensures votes == AfterVote(old(votes), data, userID)
      ensures reply == match ParseVote(data) case None => InvalidVoteReply case Some(req) => VoteReply(req.up)
    {
      var request := ParseVote(data);
      if request.None? {
        return InvalidVoteReply;
      }
      var req := request.value;
      var key := VoteKey(req.contentType, req.messageID);
      var filtered := FilterOtherUsers(VotesAt(votes, key), userID);
      votes := votes[key := filtered + [Vote(req.messageID, userID, req.up)]];
      reply := VoteReply(req.up);
    }
  }
}
