/**
 * The favorite callback of handlers/message_handlers.go: for "favorite_add" it rebuilds a
 * quote, a joke or a fact from the text of the message the button was under, then passes the
 * fields to the favorites store; any other favorite callback is passed on with empty fields.
 */
module MessageHandlers {
  import opened Text
  import opened Favorites

  /** The separator between a quote and its author. */
  const EmDash: string := "\U{2014}"

  /** The separator between a joke's setup and its punchline. */
  const BlankLine: string := "\n\n"

  /** The content fields handed to the favorites store. */
  datatype FavoriteFields = FavoriteFields(
    kind: string, content: string, author: string, setup: string, punchline: string, imageURL: string)

  /** The fields passed on for every callback other than "favorite_add". */
  const EmptyFields := FavoriteFields("", "", "", "", "", "")

  /** The format detection of HandleFavoriteCallback. Text with an em dash is a quote: the
      trimmed pieces before the first dash and between the first and second dash are the content
      and the author. Otherwise text with a blank line and without "SURPRISE" is a joke: the
      trimmed first two blank-line pieces are setup and punchline, and the content joins them
      with a space. Anything else is a fact whose content is the text as it came. */
  function ClassifyFavorite(text: string): (f: FavoriteFields)
    ensures f.kind in {"quote", "joke", "fact"}
    ensures f.imageURL == ""
    ensures f.kind == "quote" <==> Contains(text, EmDash)
    ensures f.kind == "joke" <==> !Contains(text, EmDash) && Contains(text, BlankLine) && !Contains(text, "SURPRISE")
    ensures f.kind == "quote" ==> f.setup == "" && f.punchline == ""
    ensures f.kind == "joke" ==> f.author == "" && f.content == f.setup + " " + f.punchline
    ensures f.kind == "fact" ==> f == FavoriteFields("fact", text, "", "", "", "")
  {
    if Contains(text, EmDash) then
      var parts := Split(text, EmDash);
      SplitCount(text, EmDash);
      if |parts| >= 2 then FavoriteFields("quote", TrimSpace(parts[0]), TrimSpace(parts[1]), "", "", "")
      else FavoriteFields("quote", text, "", "", "", "")
    else if Contains(text, BlankLine) && !Contains(text, "SURPRISE") then
      var parts := Split(text, BlankLine);
      SplitCount(text, BlankLine);
      if |parts| >= 2 then
        var setup := TrimSpace(parts[0]);
        var punchline := TrimSpace(parts[1]);
        FavoriteFields("joke", setup + " " + punchline, "", setup, punchline, "")
      else FavoriteFields("joke", text, "", "", "", "")
    else FavoriteFields("fact", text, "", "", "", "")
  }

  /** The piece of `s` after the first occurrence of `sep` and up to the next one, or to the end. */
  function SecondPiece(s: string, sep: string): string
    requires |sep| > 0 && Contains(s, sep)
  {
    var rest := s[IndexOf(s, sep).value + |sep|..];
    match IndexOf(rest, sep)
    case None => rest
    case Some(k) => rest[..k]
  }

  /** A quote's content is the trimmed text before the first em dash, and its author is the
      trimmed text between the first and the second em dash, not everything after the first. */
  lemma QuoteFields(text: string)
    requires Contains(text, EmDash)
    ensures var f := ClassifyFavorite(text);
      && f.content == TrimSpace(text[..IndexOf(text, EmDash).value])
      && f.author == TrimSpace(SecondPiece(text, EmDash))
  {
    var parts := Split(text, EmDash);
    SplitCount(text, EmDash);
    assert ClassifyFavorite(text) == FavoriteFields("quote", TrimSpace(parts[0]), TrimSpace(parts[1]), "", "", "");
    SplitFirstPieces(text, EmDash);
  }

  /** A joke's setup is the trimmed text before the first blank line and its punchline the
      trimmed text between the first and the second blank line. */
  lemma JokeFields(text: string)
    requires !Contains(text, EmDash) && Contains(text, BlankLine) && !Contains(text, "SURPRISE")
    ensures var f := ClassifyFavorite(text);
      && f.setup == TrimSpace(text[..IndexOf(text, BlankLine).value])
      && f.punchline == TrimSpace(SecondPiece(text, BlankLine))
      && f.content == f.setup + " " + f.punchline
  {
    var parts := Split(text, BlankLine);
    SplitCount(text, BlankLine);
    var setup, punchline := TrimSpace(parts[0]), TrimSpace(parts[1]);
    assert ClassifyFavorite(text) == FavoriteFields("joke", setup + " " + punchline, "", setup, punchline, "");
    SplitFirstPieces(text, BlankLine);
  }

  /** A quote in the shape main.go's quote fetcher gives it, the content, a spaced em dash and
      the author, comes back with that content and author when neither contains a dash and both
      are already trimmed. */
  lemma QuoteRoundTrip(content: string, author: string)
    requires '\U{2014}' !in content && '\U{2014}' !in author
    requires Unpadded(content) && Unpadded(author)
    ensures var f := ClassifyFavorite(content + " " + EmDash + " " + author);
      f.kind == "quote" && f.content == content && f.author == author
  {
    var text := content + " " + EmDash + " " + author;
    var a := content + " ";
    var b := " " + author;
    SpacedDash(content, author);
    DashSplit(a, b);
    QuoteClassified(text, a, b);
    TrimSpacePadded([], content, " ");
    TrimSpacePadded(" ", author, []);
    assert [] + content + " " == a && " " + author + [] == b;
  }

  /** The spaced em dash is one dash character between the padded pieces. */
  lemma SpacedDash(content: string, author: string)
    ensures content + " " + EmDash + " " + author == (content + " ") + ['\U{2014}'] + (" " + author)
  {
    assert EmDash == ['\U{2014}'];
  }

  /** Text with exactly one em dash splits into the pieces before and after it. */
  lemma DashSplit(a: string, b: string)
    requires '\U{2014}' !in a && '\U{2014}' !in b
    ensures Split(a + ['\U{2014}'] + b, EmDash) == [a, b]
  {
    assert EmDash == ['\U{2014}'];
    SplitAround(a, '\U{2014}', b);
    SplitWithout(b, '\U{2014}');
  }

  /** Text that splits into two pieces at the em dash is a quote of those pieces, trimmed. */
  lemma QuoteClassified(text: string, a: string, b: string)
    requires Split(text, EmDash) == [a, b]
    ensures ClassifyFavorite(text) == FavoriteFields("quote", TrimSpace(a), TrimSpace(b), "", "", "")
  {
    SplitCount(text, EmDash);
  }

  /** What HandleFavoriteCallback passes to the favorites store: the classified fields for
      "favorite_add", and empty fields for anything else. */
  function ForwardedFields(data: string, originalContent: string): (f: FavoriteFields)
    ensures data == "favorite_add" ==> f == ClassifyFavorite(originalContent) && f.kind != "general"
    ensures data != "favorite_add" ==> f == EmptyFields
  {
    if data == "favorite_add" then ClassifyFavorite(originalContent) else EmptyFields
  }

  /** HandleFavoriteCallback of the message handler: classify, then hand over to the store with
      the random id bytes, the clock and the write outcome. */
  method HandleFavoriteCallback(manager: FavoriteManager, data: string, userID: int, originalContent: string,
                                randomBytes: seq<uint8>, now: int, writeOk: bool) returns (reply: string)
    requires |randomBytes| == 4
    modifies manager
    ensures var f := ForwardedFields(data, originalContent);
      match ParseFavoriteAction(data)
      case AddAction =>
        && reply == "Added to favorites! (ID: " + GenerateID(randomBytes) + ")"
        && manager.State() == AfterAdd(old(manager.State()), manager.dataDir, userID,
             Favorite(GenerateID(randomBytes), userID, f.kind, f.content, f.author, f.setup, f.punchline, f.imageURL, now), writeOk)
      case RemoveAction(id) =>
        && reply == (if HasFavorite(Loaded(old(manager.State()), manager.dataDir, userID).cache[userID], id)
                     then RemovedReply else NotFoundReply)
        && manager.State() == AfterRemove(old(manager.State()), manager.dataDir, userID, id, writeOk)
      case UnknownAction =>
        reply == UnknownActionReply && manager.State() == old(manager.State())
  {
    var f := ForwardedFields(data, originalContent);
    reply := manager.HandleFavoriteCallback(data, userID, f.kind, f.content, f.author, f.setup, f.punchline,
                                            f.imageURL, randomBytes, now, writeOk);
  }
}
