/**
  The two buttons of a workflow step page shown in an iframe
  (weko_workflow/.../iframe_pop.js): "finish" and "save draft" post the
  comment to the step's next URI, and the answer either moves the parent
  window on or puts a message into the page's modal.
 */
module WorkflowAction {
  import opened Wrappers
  import Text
  import Json

  const DETAIL_PREFIX := "/workflow/activity/detail/"
  const SERVER_ERROR := "Server Error"

  /** The property names of `post_data`. */
  const COMMENT_KEY := "commond"
  const VERSION_KEY := "action_version"
  const FLAG_KEY := "temporary_save"

  datatype Button = Finish | Draft

  /**
    What `.cur_step` in the parent document carries: its `next-uri` data
    attribute, and its `action-version` as the JSON text of the value jQuery's
    `.data` returns, None when the attribute is missing.
   */
  datatype CurStep = CurStep(nextUri: string, actionVersion: Option<string>)

  type Flag = f: nat | f <= 1

  /** `post_data`; `commond` is the key the source sends the comment under. */
  datatype Payload = Payload(commond: string, actionVersion: Option<string>, temporarySave: Flag)

  datatype Post = Post(url: string, payload: Payload)

  /** 0 submits the step, 1 keeps it as a draft. */
  function TemporarySave(button: Button): (flag: Flag)
  {
    match button
    case Finish => 0
    case Draft => 1
  }

  /** The request a click on `button` sends. */
  function BuildPost(button: Button, comment: string, step: CurStep): (post: Post)
  {
    Post(step.nextUri, Payload(comment, step.actionVersion, TemporarySave(button)))
  }

  /** The members of `post_data` before `temporary_save`; an undefined `action_version` is left out. */
  function LeadingMembers(p: Payload): (front: seq<(string, string)>)
    ensures |front| >= 1
  {
    var version := match p.actionVersion case Some(v) => [(VERSION_KEY, v)] case None => [];
    [(COMMENT_KEY, Json.Quote(p.commond))] + version
  }

  function FlagText(f: Flag): (digit: string)
  {
    if f == 0 then "0" else "1"
  }

  /** `JSON.stringify(post_data)`: the properties in their literal order. */
  function PayloadText(p: Payload): (text: string)
  {
    Json.ObjectText(LeadingMembers(p) + [(FLAG_KEY, FlagText(p.temporarySave))])
  }

  /**
    Both buttons post to the same URI with the same comment and action
    version; the payloads differ only in `temporary_save`, and so their JSON
    texts differ only in the digit before the closing brace.
   */
  lemma ButtonsDifferOnlyInFlag(comment: string, step: CurStep)
    ensures BuildPost(Finish, comment, step).url == BuildPost(Draft, comment, step).url == step.nextUri
    ensures BuildPost(Finish, comment, step).payload == BuildPost(Draft, comment, step).payload.(temporarySave := 0)
    ensures BuildPost(Draft, comment, step).payload.temporarySave == 1
    ensures var f := PayloadText(BuildPost(Finish, comment, step).payload);
      var d := PayloadText(BuildPost(Draft, comment, step).payload);
      && |f| == |d| >= 2
      && f[..|f| - 2] == d[..|d| - 2]
      && f[|f| - 2] == '0' && d[|d| - 2] == '1' && f[|f| - 1] == d[|d| - 1] == '}'
  {
    var fp := BuildPost(Finish, comment, step).payload;
    var dp := BuildPost(Draft, comment, step).payload;
    assert LeadingMembers(fp) == LeadingMembers(dp);
    var front := LeadingMembers(fp);
    var head := "{" + Json.Members(front) + "," + Json.Quote(FLAG_KEY) + ":";
    PayloadTail(front, FLAG_KEY, FlagText(0), head);
    PayloadTail(front, FLAG_KEY, FlagText(1), head);
  }

  /** An object whose last member has a one-character value ends with that character and the brace. */
  lemma PayloadTail(front: seq<(string, string)>, key: string, flag: string, head: string)
    requires |front| >= 1 && |flag| == 1
    requires head == "{" + Json.Members(front) + "," + Json.Quote(key) + ":"
    ensures var t := Json.ObjectText(front + [(key, flag)]);
      |t| == |head| + 2 && t[..|head|] == head && t[|head|] == flag[0] && t[|head| + 1] == '}'
  {
    var t := Json.ObjectText(front + [(key, flag)]);
    var m := Json.Members(front);
    var q := Json.Quote(key);
    assert t == "{" + (m + "," + (q + ":" + flag)) + "}" by {
      Json.MembersAppend(front, key, flag);
    }
    Regroup(m, q, flag);
    EndsWith(t, head, flag);
  }

  lemma Regroup(m: string, q: string, flag: string)
    ensures "{" + (m + "," + (q + ":" + flag)) + "}" == ("{" + m + "," + q + ":") + flag + "}"
  {
  }

  lemma EndsWith(t: string, head: string, flag: string)
    requires |flag| == 1 && t == head + flag + "}"
    ensures |t| == |head| + 2 && t[..|head|] == head && t[|head|] == flag[0] && t[|head| + 1] == '}'
  {
  }

  // ---------------------------------------------------------------------------
  // Responses

  /** `data.data` of a reply; `redirect` is None when the property is absent. */
  datatype ReplyData = ReplyData(redirect: Option<string>)

  /** A parsed reply `{code, msg?, data?}`; `code` is compared as a number. */
  datatype Reply = Reply(code: int, msg: Option<string>, data: Option<ReplyData>)

  /** How the POST ended: the `error` callback, or the `success` callback with a reply. */
  datatype Response = TransportError | Replied(reply: Reply)

  /**
    The one thing a response leads to: the parent document navigates, or the
    modal is shown. The modal's new text is None when the reply has no `msg`:
    jQuery's `.html(undefined)` does not write, so the old text stays.
   */
  datatype Action = Navigate(url: string) | ShowModal(content: Option<string>)

  /** The characters `String.prototype.trim` removes: White_Space and line terminators of ECMA-262. */
  predicate IsJsSpace(c: char)
  {
    || 0x09 <= c as int <= 0x0D
    || c as int == 0x20 || c as int == 0xA0 || c as int == 0x1680
    || 0x2000 <= c as int <= 0x200A
    || c as int == 0x2028 || c as int == 0x2029 || c as int == 0x202F
    || c as int == 0x205F || c as int == 0x3000 || c as int == 0xFEFF
  }

  /** The page the parent goes to when a successful reply names none. */
  function DefaultRedirect(activityText: string): (url: string)
  {
    DETAIL_PREFIX + Text.Trim(activityText, IsJsSpace)
  }

  /** The success and error callbacks, shared by both buttons, as one function of the response. */
  function Dispatch(response: Response, activityText: string): (action: Action)
  {
    match response
    case TransportError => ShowModal(Some(SERVER_ERROR))
    case Replied(r) =>
      if r.code == 0 then
        if r.data.Some? && r.data.value.redirect.Some? then Navigate(r.data.value.redirect.value)
        else Navigate(DefaultRedirect(activityText))
      else ShowModal(r.msg)
  }

  /**
    Each response has exactly one outcome: the parent navigates exactly on a
    reply with code 0, to the reply's redirect when it has one and to the
    activity's detail page otherwise; a non-zero code shows the reply's
    message, a transport or server error the fixed "Server Error".
   */
  lemma DispatchOutcomes(response: Response, activityText: string)
    ensures Dispatch(response, activityText).Navigate? <==> response.Replied? && response.reply.code == 0
    ensures response.Replied? && response.reply.code == 0 ==>
      var r := response.reply;
      Dispatch(response, activityText).url ==
        if r.data.Some? && r.data.value.redirect.Some? then r.data.value.redirect.value else DefaultRedirect(activityText)
    ensures response.Replied? && response.reply.code != 0 ==> Dispatch(response, activityText) == ShowModal(response.reply.msg)
    ensures response == TransportError ==> Dispatch(response, activityText) == ShowModal(Some(SERVER_ERROR))
  {
  }

  /**
    The default target is the detail prefix followed by the activity id with
    its surrounding whitespace dropped: any whitespace padding of the same id
    leads to the same page.
   */
  lemma DefaultRedirectTrims(pre: string, id: string, post: string)
    requires Text.AllIn(pre, IsJsSpace) && Text.AllIn(post, IsJsSpace)
    requires id == [] || (!IsJsSpace(id[0]) && !IsJsSpace(id[|id| - 1]))
    ensures DefaultRedirect(pre + id + post) == DETAIL_PREFIX + id
  {
    Text.TrimPadded(pre, id, post, IsJsSpace);
  }

  /**
    The cases of the source's own flow: a redirect is followed, a success
    without one goes to the activity's detail page, an error code shows its
    message, a failed request shows "Server Error".
   */
  lemma DispatchExamples(id: string)
    requires id == [] || (!IsJsSpace(id[0]) && !IsJsSpace(id[|id| - 1]))
    ensures Dispatch(Replied(Reply(0, None, Some(ReplyData(Some("/x"))))), id) == Navigate("/x")
    ensures Dispatch(Replied(Reply(0, None, None)), id) == Navigate(DETAIL_PREFIX + id)
    ensures Dispatch(Replied(Reply(0, None, Some(ReplyData(None)))), id) == Navigate(DETAIL_PREFIX + id)
    ensures Dispatch(Replied(Reply(1, Some("bad"), None)), id) == ShowModal(Some("bad"))
    ensures Dispatch(TransportError, id) == ShowModal(Some("Server Error"))
  {
    DefaultRedirectTrims("", id, "");
    assert "" + id + "" == id;
  }

  // ---------------------------------------------------------------------------
  // The iframe page

  /** What the buttons change: the parent's location, the modal, and the requests sent. */
  class StepFrame {
    /** `parent.document.location.href`. */
    var parentLocation: string
    /** The HTML of `#inputModal`. */
    var modalContent: string
    /** How often `#allModal` was shown. */
    var modalShows: nat
    /** The POSTs sent: URL and JSON body. */
    var posts: seq<(string, string)>

    constructor (location: string)
      ensures parentLocation == location && modalContent == "" && modalShows == 0 && posts == []
    {
      parentLocation, modalContent, modalShows, posts := location, "", 0, [];
    }

    /** A click on `#btn-finish` or `#btn-draft`: one asynchronous POST. */
    method Click(button: Button, comment: string, step: CurStep)
      modifies this
      ensures posts == old(posts) + [(step.nextUri, PayloadText(BuildPost(button, comment, step).payload))]
      ensures parentLocation == old(parentLocation) && modalContent == old(modalContent) && modalShows == old(modalShows)
    {
      var postUri := step.nextUri;
      var postData := Payload(comment, step.actionVersion, if button == Finish then 0 else 1);
      assert postData == BuildPost(button, comment, step).payload;
      posts := posts + [(postUri, PayloadText(postData))];
    }

    /** The callbacks of that POST, run when its response arrives. */
    method OnResponse(response: Response, activityText: string)
      modifies this
      ensures match Dispatch(response, activityText)
        case Navigate(url) =>
          parentLocation == url && modalContent == old(modalContent) && modalShows == old(modalShows)
        case ShowModal(content) =>
          && parentLocation == old(parentLocation)
          && modalContent == (if content.Some? then content.value else old(modalContent))
          && modalShows == old(modalShows) + 1
      ensures posts == old(posts)
    {
      match response
      case Replied(data) =>
        if data.code == 0 {
          if data.data.Some? && data.data.value.redirect.Some? {
            parentLocation := data.data.value.redirect.value;
          } else {
            var redirectUrl := DETAIL_PREFIX + Text.Trim(activityText, IsJsSpace);
            parentLocation := redirectUrl;
          }
        } else {
          var content := data.msg;
          if content.Some? {
            modalContent := content.value;
          }
          modalShows := modalShows + 1;
        }
      case TransportError =>
        modalContent := SERVER_ERROR;
        modalShows := modalShows + 1;
    }
  }
}
