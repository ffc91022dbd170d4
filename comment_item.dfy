/**
 One node of a post's comment thread: the pure rules it renders by (the login
 guard and the row a reply inserts, the author fallback, the replies shown or
 summarised) and the controller whose state the node's event handlers change
 (reply form open or closed, draft text, collapsed or expanded, the reply
 request in flight and its error).
 */
module CommentItem {
  import opened Strings

  /** A comment as the node receives it: the stored record plus the replies the
      caller has already nested under it (`children` may be missing). */
  datatype Comment = Comment(
    id: int,
    postId: int,
    parentCommentId: Option<int>,
    content: string,
    author: string,
    avatarUrl: Option<string>,
    createdAt: string,
    children: Option<seq<Comment>>)

  /** The signed-in user as the auth hook exposes it: the account id, the
      e-mail and the provider metadata entries the node reads. */
  datatype User = User(
    id: string,
    email: Option<string>,
    userName: Option<string>,
    fullName: Option<string>,
    avatarUrl: Option<string>)

  /** The row a reply inserts into the `Comments` table. */
  datatype ReplyRow = ReplyRow(
    postId: int,
    content: string,
    parentCommentId: int,
    userId: string,
    author: string,
    avatarUrl: Option<string>)

  const LoginRequired := "You must be logged in to reply."
  const Anonymous := "Anonymous"

  /** `value || null` on an optional string: a missing or empty value becomes null. */
  function NullIfEmpty(s: Option<string>): (r: Option<string>)
    ensures r.Some? <==> Truthy(s)
    ensures r.Some? ==> r == s
  {
    if Truthy(s) then s else None
  }

  /** `candidates[i]` is the first truthy candidate. */
  predicate FirstTruthyAt(candidates: seq<Option<string>>, i: int)
  {
    0 <= i < |candidates| && Truthy(candidates[i]) &&
    forall j :: 0 <= j < i ==> !Truthy(candidates[j])
  }

  /** `c0 || c1 || ... || fallback` over optional strings. */
  function FirstNonEmpty(candidates: seq<Option<string>>, fallback: string): (r: string)
    ensures forall i :: FirstTruthyAt(candidates, i) ==> r == candidates[i].value
    ensures (forall i :: 0 <= i < |candidates| ==> !Truthy(candidates[i])) ==> r == fallback
    ensures fallback != "" ==> r != ""
  {
    if candidates == [] then
      fallback
    else if Truthy(candidates[0]) then
      assert FirstTruthyAt(candidates, 0);
      candidates[0].value
    else
      var r := FirstNonEmpty(candidates[1..], fallback);
      assert forall i :: FirstTruthyAt(candidates, i) ==> i > 0 && FirstTruthyAt(candidates[1..], i - 1);
      r
  }

  /** The values the author name is taken from, in order of preference:
      `user_name`, `full_name`, then the e-mail; none when nobody is signed in. */
  function AuthorCandidates(user: Option<User>): (candidates: seq<Option<string>>)
  {
    if user.Some? then [user.value.userName, user.value.fullName, user.value.email]
    else [None, None, None]
  }

  /** The author name a reply is stored under: the first non-empty of the
      user's `user_name`, `full_name` and e-mail, else "Anonymous". */
  function ResolveAuthor(user: Option<User>): (author: string)
  {
    FirstNonEmpty(AuthorCandidates(user), Anonymous)
  }

  /** The author is never empty, and each source of the name is used exactly
      when every source before it is missing or empty. */
  lemma ResolveAuthorOrder(user: Option<User>)
    ensures ResolveAuthor(user) != ""
    ensures user.Some? && Truthy(user.value.userName) ==>
      ResolveAuthor(user) == user.value.userName.value
    ensures user.Some? && !Truthy(user.value.userName) && Truthy(user.value.fullName) ==>
      ResolveAuthor(user) == user.value.fullName.value
    ensures (user.Some? && !Truthy(user.value.userName) && !Truthy(user.value.fullName) &&
             Truthy(user.value.email)) ==>
      ResolveAuthor(user) == user.value.email.value
    ensures (user.None? || (!Truthy(user.value.userName) && !Truthy(user.value.fullName) &&
                            !Truthy(user.value.email))) ==>
      ResolveAuthor(user) == Anonymous
  {
    var c := AuthorCandidates(user);
    if Truthy(c[0]) {
      assert FirstTruthyAt(c, 0);
    } else if Truthy(c[1]) {
      assert FirstTruthyAt(c, 1);
    } else if Truthy(c[2]) {
      assert FirstTruthyAt(c, 2);
    }
  }

  /** The avatar a reply is stored with: the user's `avatar_url`, or null when
      it is missing or empty. */
  function ResolveAvatar(user: Option<User>): (r: Option<string>)
    ensures r.Some? <==> user.Some? && Truthy(user.value.avatarUrl)
    ensures r.Some? ==> r == user.value.avatarUrl
  {
    if user.Some? then NullIfEmpty(user.value.avatarUrl) else None
  }

  /** `createReply` up to the insert: the login guard, then the row it inserts.
      The insert itself is the backend's; its outcome is an input of the controller. */
  function CreateReply(
    replyContent: string, postId: int, parentCommentId: int,
    userId: Option<string>, author: Option<string>, avatarUrl: Option<string>
  ): (r: Result<ReplyRow, string>)
    ensures r.Failure? <==> !Truthy(userId) || !Truthy(author)
    ensures r.Failure? ==> r.error == LoginRequired
    ensures r.Success? ==>
      && r.value.postId == postId
      && r.value.content == replyContent
      && r.value.parentCommentId == parentCommentId
      && Some(r.value.userId) == userId
      && Some(r.value.author) == author
      && r.value.avatarUrl == NullIfEmpty(avatarUrl)
  {
    if !Truthy(userId) || !Truthy(author) then
      Failure(LoginRequired)
    else
      Success(ReplyRow(postId, replyContent, parentCommentId, userId.value, author.value,
                       NullIfEmpty(avatarUrl)))
  }

  /** The mutation function of the node: `createReply` called with this
      node's post, this comment as parent and the signed-in user's identity. */
  function ReplyRequest(comment: Comment, postId: int, user: Option<User>, replyContent: string)
    : (r: Result<ReplyRow, string>)
  {
    var userId := if user.Some? then Some(user.value.id) else None;
    CreateReply(replyContent, postId, comment.id, userId, Some(ResolveAuthor(user)),
                ResolveAvatar(user))
  }

  /** Since the author always falls back to "Anonymous", the login guard fails
      exactly when there is no user id; otherwise the row is a reply to this
      comment on this post, carrying the submitted text, a non-empty author and
      an avatar that is either null or non-empty. */
  lemma ReplyRequestShape(comment: Comment, postId: int, user: Option<User>, replyContent: string)
    ensures var r := ReplyRequest(comment, postId, user, replyContent);
      && (r.Failure? <==> user.None? || user.value.id == "")
      && (r.Failure? ==> r.error == LoginRequired)
      && (r.Success? ==>
            && r.value.parentCommentId == comment.id
            && r.value.postId == postId
            && r.value.content == replyContent
            && r.value.userId == user.value.id
            && r.value.author != ""
            && r.value.author == ResolveAuthor(user)
            && (r.value.avatarUrl.Some? ==> r.value.avatarUrl.value != ""))
  {
    ResolveAuthorOrder(user);
  }

  /** `hasChildren`: the replies are present and there is at least one. */
  predicate HasChildren(c: Comment)
  {
    c.children.Some? && |c.children.value| > 0
  }

  /** The label of a collapsed node: the number of replies, then "reply" for
      exactly one and "replies" otherwise. */
  function ReplyCountLabel(n: nat): (caption: string)
  {
    DecimalString(n) + " " + (if n == 1 then "reply" else "replies")
  }

  /** The label tells the count: two counts give the same label only when they
      are equal, and the singular word is used for one reply only. */
  lemma ReplyCountLabelDistinct(n: nat, m: nat)
    ensures ReplyCountLabel(n) == ReplyCountLabel(m) <==> n == m
    ensures ReplyCountLabel(n)[|ReplyCountLabel(n)| - 6..] == " reply" <==> n == 1
  {
    var dn, dm := DecimalString(n), DecimalString(m);
    var ln, lm := ReplyCountLabel(n), ReplyCountLabel(m);
    assert forall i :: 0 <= i < |dn| ==> ln[i] == dn[i];
    assert forall i :: 0 <= i < |dm| ==> lm[i] == dm[i];
    assert ln[|dn|] == ' ' && lm[|dm|] == ' ';
    if ln == lm {
      assert |dn| == |dm|;
      assert dn == ln[..|dn|] == lm[..|dm|] == dm;
      DecimalStringInjective(n, m);
    }
    if n != 1 {
      assert ln[|ln| - 1] == 's';
    }
  }

  /** What the node shows below itself. */
  datatype RepliesView =
    | NoReplies
    | ExpandedReplies(children: seq<Comment>)
    | CollapsedIndicator(caption: string)

  /** Replies are rendered, in order, only when there are some and the node is
      expanded; a collapsed node with replies shows the reply-count label. */
  function ShowReplies(c: Comment, isCollapsed: bool): (v: RepliesView)
    ensures v.NoReplies? <==> !HasChildren(c)
    ensures v.ExpandedReplies? <==> HasChildren(c) && !isCollapsed
    ensures v.ExpandedReplies? ==> v.children == c.children.value
    ensures v.CollapsedIndicator? <==> HasChildren(c) && isCollapsed
    ensures v.CollapsedIndicator? ==> v.caption == ReplyCountLabel(|c.children.value|)
  {
    if !HasChildren(c) then NoReplies
    else if isCollapsed then CollapsedIndicator(ReplyCountLabel(|c.children.value|))
    else ExpandedReplies(c.children.value)
  }

  /** The key whose cached comments are invalidated after a reply. */
  datatype QueryKey = QueryKey(table: string, postId: int)

  function CommentsKey(postId: int): (key: QueryKey)
  {
    QueryKey("Comments", postId)
  }

  /** What the node asks of the outside world. */
  datatype Effect = Insert(row: ReplyRow) | Invalidate(key: QueryKey)

  /** The backend's answer to an insert. */
  datatype InsertOutcome = Inserted | InsertFailed(message: string)

  /** The reply form as rendered. */
  datatype ReplyForm = ReplyForm(
    draft: string, submitDisabled: bool, submitLabel: string, errorLine: Option<string>)

  /** Every invalidation comes straight after an insert: one per successful reply. */
  ghost predicate InvalidationsFollowInserts(effects: seq<Effect>)
  {
    forall i :: 0 <= i < |effects| && effects[i].Invalidate? ==> i > 0 && effects[i - 1].Insert?
  }

  ghost function Inserts(effects: seq<Effect>): nat
  {
    if effects == [] then 0
    else Inserts(effects[..|effects| - 1]) + (if effects[|effects| - 1].Insert? then 1 else 0)
  }

  ghost function Invalidations(effects: seq<Effect>): nat
  {
    if effects == [] then 0
    else Invalidations(effects[..|effects| - 1]) + (if effects[|effects| - 1].Invalidate? then 1 else 0)
  }

  /** There are never more invalidations than inserts issued, and a log that
      ends in an insert has strictly fewer. */
  lemma {:induction false} InvalidationsBounded(effects: seq<Effect>)
    requires InvalidationsFollowInserts(effects)
    ensures Invalidations(effects) <= Inserts(effects)
    ensures effects != [] && effects[|effects| - 1].Insert? ==>
      Invalidations(effects) < Inserts(effects)
    decreases |effects|
  {
    if effects != [] {
      var init := effects[..|effects| - 1];
      assert InvalidationsFollowInserts(init) by {
        forall i | 0 <= i < |init| && init[i].Invalidate?
          ensures i > 0 && init[i - 1].Insert?
        {
          assert effects[i] == init[i];
        }
      }
      InvalidationsBounded(init);
    }
  }

  /** An effect belongs to the node of comment `commentId` on post `postId`:
      a non-blank reply to that comment on that post, or the invalidation of
      that post's comments. */
  ghost predicate IssuedFor(e: Effect, commentId: int, postId: int)
  {
    match e
    case Insert(row) => row.parentCommentId == commentId && row.postId == postId && !AllWhitespace(row.content)
    case Invalidate(key) => key == CommentsKey(postId)
  }

  ghost predicate EffectsOf(effects: seq<Effect>, commentId: int, postId: int)
  {
    && InvalidationsFollowInserts(effects)
    && forall i :: 0 <= i < |effects| ==> IssuedFor(effects[i], commentId, postId)
  }

  lemma AppendInsert(effects: seq<Effect>, row: ReplyRow, commentId: int, postId: int)
    requires EffectsOf(effects, commentId, postId)
    requires IssuedFor(Insert(row), commentId, postId)
    ensures EffectsOf(effects + [Insert(row)], commentId, postId)
  {
    var e := effects + [Insert(row)];
    forall i | 0 <= i < |e| && e[i].Invalidate? ensures i > 0 && e[i - 1].Insert? {
      assert e[i] == effects[i];
    }
  }

  lemma AppendInvalidate(effects: seq<Effect>, commentId: int, postId: int)
    requires EffectsOf(effects, commentId, postId)
    requires effects != [] && effects[|effects| - 1].Insert?
    ensures EffectsOf(effects + [Invalidate(CommentsKey(postId))], commentId, postId)
  {
    var e := effects + [Invalidate(CommentsKey(postId))];
    forall i | 0 <= i < |e| && e[i].Invalidate? ensures i > 0 && e[i - 1].Insert? {
      if i < |effects| {
        assert e[i] == effects[i];
      }
    }
  }

  /** The state of one rendered comment node. */
  class CommentController {
    var comment: Comment
    const postId: int
    var showReply: bool
    var replyText: string
    var isCollapsed: bool
    /** A reply request is outstanding (`isPending`). */
    var pending: bool
    /** The message of the last failed reply (`isError` and `error.message`). */
    var lastError: Option<string>
    /** Inserts and invalidations issued so far, in order. */
    ghost var effects: seq<Effect>

    ghost predicate Valid()
      reads this
    {
      && (lastError.Some? ==> !pending)
      && (pending ==> effects != [] && effects[|effects| - 1].Insert?)
      && EffectsOf(effects, comment.id, postId)
    }

    constructor (comment: Comment, postId: int)
      ensures Valid()
      ensures this.comment == comment && this.postId == postId
      ensures !showReply && replyText == "" && !isCollapsed
      ensures !pending && lastError.None? && effects == []
    {
      this.comment := comment;
      this.postId := postId;
      showReply := false;
      replyText := "";
      isCollapsed := false;
      pending := false;
      lastError := None;
      effects := [];
    }

    /** A re-render of the node under the same `key`, its comment's id: the
        node receives its comment afresh, typically with refetched replies,
        and keeps its own state. */
    method Receive(c: Comment)
      requires Valid() && c.id == comment.id
      modifies this`comment
      ensures Valid() && comment == c
    {
      comment := c;
    }

    /** The collapse button: flips this node's `isCollapsed` and nothing else.
        The button is rendered only for a node with replies. */
    method ToggleCollapse()
      requires HasChildren(comment)
      modifies this`isCollapsed
      ensures isCollapsed == !old(isCollapsed)
    {
      isCollapsed := !isCollapsed;
    }

    /** The Reply/Cancel button beside the comment: flips `showReply`. */
    method ToggleReply()
      modifies this`showReply
      ensures showReply == !old(showReply)
    {
      showReply := !showReply;
    }

    /** The Cancel button of the form: closes it and keeps the draft. */
    method CancelReply()
      modifies this`showReply
      ensures !showReply
    {
      showReply := false;
    }

    /** Typing in the reply box. */
    method EditReply(text: string)
      modifies this`replyText
      ensures replyText == text
    {
      replyText := text;
    }

    /** Submitting the form: blank text is ignored; otherwise the mutation
        starts with the untrimmed text. When the login guard fails the mutation
        fails at once without an insert; otherwise the insert is issued and the
        request stays outstanding until `Settle`. The form and the draft are
        left as they are in every case. The submit button is disabled while a
        request is outstanding, hence `!pending`. */
    method SubmitReply(user: Option<User>) returns (issued: bool)
      requires Valid() && !pending
      modifies this`pending, this`lastError, this`effects
      ensures Valid()
      ensures AllWhitespace(replyText) ==>
        !issued && !pending && lastError == old(lastError) && effects == old(effects)
      ensures !AllWhitespace(replyText) ==>
        match ReplyRequest(comment, postId, user, replyText)
        case Success(row) =>
          issued && pending && lastError.None? && effects == old(effects) + [Insert(row)]
        case Failure(message) =>
          !issued && !pending && lastError == Some(message) && effects == old(effects)
    {
      var blank := IsBlankText(replyText);
      if blank {
        return false;
      }
      var request := ReplyRequest(comment, postId, user, replyText);
      if request.Success? {
        AppendInsert(effects, request.value, comment.id, postId);
        pending := true;
        lastError := None;
        effects := effects + [Insert(request.value)];
        issued := true;
      } else {
        pending := false;
        lastError := Some(request.error);
        issued := false;
      }
    }

    /** The backend's answer to the outstanding insert. On success the cached
        comments of the post are invalidated once, the draft is cleared and the
        form closed; on failure the error is kept and the form and draft stay
        as they were. */
    method Settle(outcome: InsertOutcome)
      requires Valid() && pending
      modifies this`pending, this`lastError, this`effects, this`replyText, this`showReply
      ensures Valid() && !pending
      ensures outcome.Inserted? ==>
        && lastError.None? && replyText == "" && !showReply
        && effects == old(effects) + [Invalidate(CommentsKey(postId))]
      ensures outcome.InsertFailed? ==>
        && lastError == Some(outcome.message)
        && replyText == old(replyText) && showReply == old(showReply)
        && effects == old(effects)
    {
      pending := false;
      match outcome
      case Inserted =>
        AppendInvalidate(effects, comment.id, postId);
        effects := effects + [Invalidate(CommentsKey(postId))];
        replyText := "";
        showReply := false;
        lastError := None;
      case InsertFailed(message) =>
        lastError := Some(message);
    }

    /** The reply form: shown only while `showReply` is set and a user is
        signed in; it shows the draft, disables its submit button while a
        request is outstanding, and shows the last error after a failure. */
    function Form(user: Option<User>): (f: Option<ReplyForm>)
      reads this
      ensures f.Some? <==> showReply && user.Some?
      ensures f.Some? ==> f.value.draft == replyText && f.value.submitDisabled == pending
      ensures f.Some? ==> (f.value.errorLine.Some? <==> lastError.Some?)
      ensures f.Some? && lastError.Some? ==> f.value.errorLine == Some("Error: " + lastError.value)
      ensures f.Some? ==> f.value.submitLabel == (if pending then "Posting..." else "Reply")
    {
      if showReply && user.Some? then
        Some(ReplyForm(
          replyText, pending, if pending then "Posting..." else "Reply",
          if lastError.Some? then Some("Error: " + lastError.value) else None))
      else
        None
    }
  }

  /** Scenarios of the comment thread, stated against the controller's
      contracts alone. */
  method ReplyScenarios(comment: Comment, postId: int, user: User)
    requires user.id != ""
  {
    var node := new CommentController(comment, postId);
    node.ToggleReply();
    assert node.showReply;

    // Whitespace-only text issues nothing and leaves the form open.
    node.EditReply("  ");
    assert AllWhitespace("  ");
    var issued := node.SubmitReply(Some(user));
    assert !issued && node.showReply && node.replyText == "  " && node.effects == [];

    // A real reply is issued once, then clears the draft and closes the form.
    node.EditReply("hi");
    assert !IsWhitespace("hi"[0]);
    ReplyRequestShape(comment, postId, Some(user), "hi");
    issued := node.SubmitReply(Some(user));
    assert issued && node.pending;
    assert node.effects[0].Insert? && node.effects[0].row.parentCommentId == comment.id;
    node.Settle(Inserted);
    assert node.replyText == "" && !node.showReply;
    assert node.effects[1..] == [Invalidate(CommentsKey(postId))];

    // The refetch brings the reply in as a child; the node keeps its state
    // and now offers the collapse button.
    var reply := Comment(0, postId, Some(comment.id), "hi", "", None, "", None);
    node.Receive(comment.(children := Some([reply])));
    assert !node.isCollapsed && !node.showReply && node.replyText == "";
    node.ToggleCollapse();
    assert ShowReplies(node.comment, node.isCollapsed) == CollapsedIndicator(ReplyCountLabel(1));
  }
}
