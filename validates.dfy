/** The local checks `createMediaComment` applies to a comment before
    posting it (src/Traits/Validates.php). */
module Validates {

  import opened Values
  import opened Strings
  import opened ProviderCore

  const TooLongMessage: string := "The total length of the comment cannot exceed 300 characters."
  const TooManyHashtagsMessage: string := "The comment cannot contain more than 4 hashtags."
  const TooManyUrlsMessage: string := "The comment cannot contain more than 1 URL."
  const AllCapitalsMessage: string := "The comment cannot consist of all capital letters."

  /** `validateComment($comment)`: the exception it throws, if any. The
      checks run in order and the first that fails decides the message. */
  function ValidateComment(comment: string): (r: Option<Failure>)
    ensures r.Some? ==> r.value.InvalidParamException?
  {
    if ByteLength(comment) > 300 then Some(InvalidParamException(TooLongMessage))
    else if Count(comment, "#") > 4 then Some(InvalidParamException(TooManyHashtagsMessage))
    else if Count(comment, "http://") > 1 then Some(InvalidParamException(TooManyUrlsMessage))
    else if ToUpperAscii(comment) == comment then Some(InvalidParamException(AllCapitalsMessage))
    else None
  }

  /** The rules stated on the comment itself: at most 300 bytes, at most four
      `#` characters, at most one `http://`, and at least one lower-case
      letter; the first rule broken decides the message. */
  lemma ValidateCommentRules(comment: string)
    ensures ValidateComment(comment) ==
      if ByteLength(comment) > 300 then Some(InvalidParamException(TooLongMessage))
      else if multiset(comment)['#'] > 4 then Some(InvalidParamException(TooManyHashtagsMessage))
      else if TwoApart(comment, "http://") then Some(InvalidParamException(TooManyUrlsMessage))
      else if !HasLowerAscii(comment) then Some(InvalidParamException(AllCapitalsMessage))
      else None
  {
    CountChar(comment, '#');
    CountAtLeastTwo(comment, "http://");
    UpperFixedIff(comment);
  }

  /** A comment is accepted exactly when it breaks none of the rules. */
  lemma ValidateCommentAccepts(comment: string)
    ensures ValidateComment(comment) == None <==>
      && ByteLength(comment) <= 300
      && multiset(comment)['#'] <= 4
      && !TwoApart(comment, "http://")
      && HasLowerAscii(comment)
  {
    ValidateCommentRules(comment);
  }

  /** For an ASCII comment the byte limit is a character limit. */
  lemma AsciiLengthLimit(comment: string)
    requires IsAscii(comment)
    ensures ValidateComment(comment) == Some(InvalidParamException(TooLongMessage)) <==> |comment| > 300
  {
    ByteLengthBounds(comment);
  }

  /** Every `http://` holds a colon. */
  lemma LinkHasColon(comment: string, i: int)
    requires OccursAt(comment, "http://", i)
    ensures ':' in comment
  {
    assert comment[i + 4] == comment[i..i + 7][4];
  }

  /** A comment without a colon holds no link. */
  lemma NoColonNoLinks(comment: string)
    requires ':' !in comment
    ensures !TwoApart(comment, "http://")
  {
    if TwoApart(comment, "http://") {
      var i, j :| OccursAt(comment, "http://", i) && OccursAt(comment, "http://", j) && i + 7 <= j;
      LinkHasColon(comment, i);
    }
  }

  /** Two links, each followed by some text. */
  lemma TwoLinksApart(a: string, b: string)
    ensures TwoApart("http://" + a + "http://" + b, "http://")
  {
    var link := "http://";
    var s := link + a + link + b;
    assert s[0..7] == link;
    assert s[7 + |a|..14 + |a|] == link;
    assert OccursAt(s, link, 0) && OccursAt(s, link, 7 + |a|);
  }

  /** A comment of at most 75 characters, hence at most 300 bytes, with at
      most four `#` and no colon passes exactly when it has a lower-case
      letter, and is otherwise rejected as all capitals. */
  lemma ShortCommentVerdict(comment: string)
    requires |comment| <= 75 && multiset(comment)['#'] <= 4 && ':' !in comment
    ensures ValidateComment(comment) ==
            if HasLowerAscii(comment) then None else Some(InvalidParamException(AllCapitalsMessage))
  {
    ByteLengthBounds(comment);
    NoColonNoLinks(comment);
    ValidateCommentRules(comment);
  }

  /** A comment without lower-case letters is rejected whatever else it
      holds, unless an earlier rule already rejected it: the empty comment
      and a comment of digits are rejected as capitals. */
  lemma NoLetterCommentsRejected()
    ensures ValidateComment("") == Some(InvalidParamException(AllCapitalsMessage))
    ensures ValidateComment("2024") == Some(InvalidParamException(AllCapitalsMessage))
  {
    ShortCommentVerdict("");
    var digits := "2024";
    assert forall i | 0 <= i < |digits| :: !IsLowerAscii(digits[i]);
    assert '#' !in digits && ':' !in digits;
    ShortCommentVerdict(digits);
  }

  /** A comment of 300 letters passes, one of 301 does not. */
  lemma LengthBoundary()
    ensures ValidateComment(seq(300, _ => 'a')) == None
    ensures ValidateComment(seq(301, _ => 'a')) == Some(InvalidParamException(TooLongMessage))
  {
    var ok := seq(300, _ => 'a');
    var long := seq(301, _ => 'a');
    ByteLengthBounds(ok);
    ByteLengthBounds(long);
    assert IsAscii(ok) && IsAscii(long);
    assert '#' !in ok && ':' !in ok;
    NoColonNoLinks(ok);
    assert IsLowerAscii(ok[0]);
    ValidateCommentAccepts(ok);
  }

  /** Four hashtags pass, five are rejected. */
  lemma HashtagBoundary()
    ensures ValidateComment("a#b#c#d#") == None
    ensures ValidateComment("a#b#c#d#e#") == Some(InvalidParamException(TooManyHashtagsMessage))
  {
    var four := "a#b#c#d#";
    var five := "a#b#c#d#e#";
    assert four == ['a', '#', 'b', '#', 'c', '#', 'd', '#'];
    assert five == four + ['e', '#'];
    assert multiset(four)['#'] == 4;
    assert ':' !in four;
    assert IsLowerAscii(four[0]);
    ShortCommentVerdict(four);
    ByteLengthBounds(five);
    ValidateCommentRules(five);
  }

  /** A short comment without `#` that holds two links is rejected for
      them. */
  lemma LinksRejected(comment: string)
    requires |comment| <= 75 && '#' !in comment && TwoApart(comment, "http://")
    ensures ValidateComment(comment) == Some(InvalidParamException(TooManyUrlsMessage))
  {
    ByteLengthBounds(comment);
    ValidateCommentRules(comment);
  }

  lemma TwoLinksFound()
    ensures TwoApart("http://a http://b", "http://") && '#' !in "http://a http://b"
  {
    var a, b := "a ", "b";
    var two := "http://a http://b";
    assert two == "http://" + a + "http://" + b;
    TwoLinksApart(a, b);
    assert '#' !in two;
  }

  /** Two `http://` links are rejected. */
  lemma TwoLinksRejected()
    ensures ValidateComment("http://a http://b") == Some(InvalidParamException(TooManyUrlsMessage))
  {
    TwoLinksFound();
    LinksRejected("http://a http://b");
  }

  /** An all-capitals comment is rejected. */
  lemma CapitalsRejected()
    ensures ValidateComment("HELLO") == Some(InvalidParamException(AllCapitalsMessage))
  {
    var caps := "HELLO";
    assert forall i | 0 <= i < |caps| :: !IsLowerAscii(caps[i]);
    assert '#' !in caps && ':' !in caps;
    ShortCommentVerdict(caps);
  }

  /** One `#` between two texts without one. */
  lemma OneHashtag(a: string, b: string)
    requires '#' !in a && '#' !in b
    ensures multiset(a + ['#'] + b)['#'] == 1
  {
    assert multiset(a + ['#'] + b) == multiset(a) + multiset{'#'} + multiset(b);
  }

  lemma HelloWorldFacts()
    ensures multiset("Hello #world")['#'] == 1 && ':' !in "Hello #world" && HasLowerAscii("Hello #world")
  {
    var a, b := "Hello ", "world";
    HelloWorldSplit(a, b);
    OneHashtag(a, b);
    assert IsLowerAscii(b[0]);
  }

  lemma HelloWorldSplit(a: string, b: string)
    requires a == "Hello " && b == "world"
    ensures "Hello #world" == a + ['#'] + b
    ensures '#' !in a && '#' !in b && ':' !in a && ':' !in b
  {
  }

  /** "Hello #world" passes every check. */
  lemma HelloWorldAccepted()
    ensures ValidateComment("Hello #world") == None
  {
    HelloWorldFacts();
    ShortCommentVerdict("Hello #world");
  }
}
