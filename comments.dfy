/** The comment endpoints (src/Traits/CommentsWS.php): listing, creating and
    deleting the comments of a media object. Each operation gives the request
    it issues; creating a comment first applies the local checks. */
module Comments {

  import opened Values
  import opened ProviderCore
  import Instagram
  import opened Validates
  import opened Strings

  /** The endpoint template of a media object's comments. */
  const MediaCommentsTemplate: string := "media/%s/comments"

  /** The endpoint template of one comment of a media object. */
  const MediaCommentDeleteTemplate: string := "media/%s/comments/%s"

  lemma CommentsTemplateFill(mediaId: string)
    ensures WellFormedTemplate(MediaCommentsTemplate) && Placeholders(MediaCommentsTemplate) == 1
    ensures FormatArgs(Str(mediaId)) == [Str(mediaId)]
  {
    var a, b := "media/", "/comments";
    assert MediaCommentsTemplate == a + "%s" + b;
    VsprintfOne(a, b, Str(mediaId));
  }

  lemma DeleteTemplateFill(mediaId: string, commentId: string)
    ensures WellFormedTemplate(MediaCommentDeleteTemplate) && Placeholders(MediaCommentDeleteTemplate) == 2
    ensures FormatArgs(Arr([("0", Str(mediaId)), ("1", Str(commentId))])) == [Str(mediaId), Str(commentId)]
  {
    var a, b := "media/", "/comments/";
    assert MediaCommentDeleteTemplate == a + "%s" + b + "%s";
    VsprintfTwoLast(a, b, Str(mediaId), Str(commentId));
    ListArgs(Str(mediaId), Str(commentId));
  }

  /** The URL of a media object's comments: `getBaseUrl('media/%s/comments',
      $token, $mediaId)`. */
  function MediaCommentsUrl(token: string, mediaId: string): string {
    CommentsTemplateFill(mediaId);
    Instagram.ApiUrl(MediaCommentsTemplate, token, Str(mediaId))
  }

  /** `getMediaComments($token, $mediaId)`. */
  function GetMediaComments(token: string, mediaId: string): HttpCall {
    HttpGet(MediaCommentsUrl(token, mediaId))
  }

  /** `createMediaComment($token, $mediaId, $comment)`: the exception the
      checks raise, or the POST of the comment's text. */
  function CreateMediaComment(token: string, mediaId: string, comment: string): Result<HttpCall, Failure> {
    match ValidateComment(comment)
    case Some(failure) => Err(failure)
    case None => Ok(HttpPost(MediaCommentsUrl(token, mediaId), [("text", Str(comment))]))
  }

  /** `deleteMediaComment($token, $mediaId, $commentId)`: both identifiers
      fill the template, in order. */
  function DeleteMediaComment(token: string, mediaId: string, commentId: string): HttpCall {
    DeleteTemplateFill(mediaId, commentId);
    HttpDelete(Instagram.ApiUrl(MediaCommentDeleteTemplate, token, Arr([("0", Str(mediaId)), ("1", Str(commentId))])))
  }

  /** Listing targets `media/{mediaId}/comments` with the access token. */
  lemma GetMediaCommentsUrl(token: string, mediaId: string)
    ensures GetMediaComments(token, mediaId) ==
            HttpGet(Instagram.ApiRoot + "media/" + mediaId + "/comments" + "?access_token=" + token)
  {
    var a, b := "media/", "/comments";
    assert MediaCommentsTemplate == a + "%s" + b;
    Instagram.ApiUrlOne(MediaCommentsTemplate, a, b, token, Str(mediaId));
  }

  /** A comment is posted exactly when it breaks none of the rules of
      `validateComment`, with exactly its text as the body, to the URL its
      media object's comments are listed at; otherwise the exception of the
      first rule it breaks is raised and no request is issued. */
  lemma CreateValidatesFirst(token: string, mediaId: string, comment: string)
    ensures var r := CreateMediaComment(token, mediaId, comment);
      && (r.Ok? <==>
            && ByteLength(comment) <= 300
            && multiset(comment)['#'] <= 4
            && !TwoApart(comment, "http://")
            && HasLowerAscii(comment))
      && (r.Ok? ==>
            r.value == HttpPost(Instagram.ApiRoot + "media/" + mediaId + "/comments" + "?access_token=" + token,
                                [("text", Str(comment))]))
      && (r.Err? ==>
            r.error == InvalidParamException(
              if ByteLength(comment) > 300 then TooLongMessage
              else if multiset(comment)['#'] > 4 then TooManyHashtagsMessage
              else if TwoApart(comment, "http://") then TooManyUrlsMessage
              else AllCapitalsMessage))
  {
    ValidateCommentRules(comment);
    GetMediaCommentsUrl(token, mediaId);
  }

  /** A comment without a lower-case letter is never posted, whatever else
      it holds. */
  lemma CapitalsNeverPosted(token: string, mediaId: string, comment: string)
    ensures !HasLowerAscii(comment) ==> CreateMediaComment(token, mediaId, comment).Err?
  {
    ValidateCommentRules(comment);
  }

  /** Deleting targets `media/{mediaId}/comments/{commentId}`: the media id
      fills the first placeholder and the comment id the second. */
  lemma DeleteMediaCommentUrl(token: string, mediaId: string, commentId: string)
    ensures DeleteMediaComment(token, mediaId, commentId) ==
            HttpDelete(Instagram.ApiRoot + "media/" + mediaId + "/comments/" + commentId + "?access_token=" + token)
  {
    var a, b := "media/", "/comments/";
    assert MediaCommentDeleteTemplate == a + "%s" + b + "%s";
    Instagram.ApiUrlTwoLast(MediaCommentDeleteTemplate, a, b, token, Str(mediaId), Str(commentId));
  }
}
