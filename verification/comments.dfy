/** Comments on community posts: the per-post thread, creation with its required fields, and
    deletion restricted to the comment's owner or an admin. */
module Comments {
  import opened Wrappers
  import opened Seqs
  import opened Sorting
  import opened Js
  import opened Db
  import opened Http
  import Community

  /** `INSERT INTO comments (post_id, user_id, message)`: one row with a fresh id and the current
      time; nothing else changes. */
  function CreateComment(s: Store, postId: int, userId: int, message: string): (s': Store)
    ensures |s'.comments| == |s.comments| + 1
    ensures s' == s.(comments := s.comments + [s'.comments[|s.comments|]])
    ensures var c := s'.comments[|s.comments|];
      c.postId == postId && c.userId == userId && c.message == message && c.createdAt == s.clock &&
      forall i :: 0 <= i < |s.comments| ==> s.comments[i].id < c.id
  {
    var id := NextId(s.comments, (c: Comment) => c.id);
    s.(comments := s.comments + [Comment(id, postId, userId, message, s.clock)])
  }

  /** `DELETE FROM comments WHERE id = ?`: exactly the rows with that id go. */
  function DeleteComment(s: Store, id: int): (s': Store)
    ensures s' == s.(comments := s'.comments)
    ensures forall i :: 0 <= i < |s'.comments| ==> s'.comments[i] in s.comments && s'.comments[i].id != id
    ensures forall i :: 0 <= i < |s.comments| && s.comments[i].id != id ==> s.comments[i] in s'.comments
  {
    s.(comments := Filter(s.comments, (c: Comment) => c.id != id))
  }

  /** `SELECT … FROM comments WHERE id = ?`: the first comment with that id. */
  function CommentById(s: Store, id: int): (r: Option<Comment>)
    ensures r.Some? ==> r.value in s.comments && r.value.id == id
    ensures r.None? <==> forall i :: 0 <= i < |s.comments| ==> s.comments[i].id != id
  {
    match Find(s.comments, (c: Comment) => c.id == id)
    case None => None
    case Some(k) => Some(s.comments[k])
  }

  /** A comment as the thread shows it, with the commenter's name and image from the outer
      join. */
  datatype CommentView = CommentView(comment: Comment, name: Option<string>, image: Option<string>)

  /** The thread order: oldest first. */
  predicate OlderComment(a: Comment, b: Comment) {
    a.createdAt <= b.createdAt
  }

  /** The comments of a post, oldest first: exactly the post's comments, rearranged. */
  function Thread(s: Store, postId: int): (r: seq<Comment>)
    ensures multiset(r) == multiset(Filter(s.comments, (c: Comment) => c.postId == postId))
    ensures SortedBy(r, OlderComment)
    ensures forall k :: 0 <= k < |r| ==> r[k] in s.comments && r[k].postId == postId
  {
    var mine := Filter(s.comments, (c: Comment) => c.postId == postId);
    SortIsSorted(mine, OlderComment);
    var r := Sort(mine, OlderComment);
    forall k | 0 <= k < |r|
      ensures r[k] in s.comments && r[k].postId == postId
    {
      assert r[k] in multiset(mine);
    }
    r
  }

  /** A thread entry: the commenter's name and image, null when the user is gone. */
  function ViewComment(s: Store, c: Comment): (v: CommentView)
    ensures v.comment == c
    ensures Community.AuthorOf(s.users, Some(c.userId)).None? ==> v.name.None? && v.image.None?
    ensures Community.AuthorOf(s.users, Some(c.userId)).Some? ==>
              var u := Community.AuthorOf(s.users, Some(c.userId)).value;
              v.name == Some(u.name) && v.image == u.image
  {
    match Community.AuthorOf(s.users, Some(c.userId))
    case None => CommentView(c, None, None)
    case Some(u) => CommentView(c, Some(u.name), u.image)
  }

  /** GET /api/comments/:postId. The id goes through unary `+`; one that is not a number reaches
      the query as NaN, which the database rejects. */
  function GetByPostId(s: Store, postId: string): (h: Handled<seq<CommentView>>)
    ensures h.store == s && h.destroyed == []
    ensures StringToNumber(postId).None? ==> h.reply == Fail(500, "Failed to load comments")
    ensures StringToNumber(postId).Some? ==>
              var thread := Thread(s, StringToNumber(postId).value);
              h.reply.Ok? && h.reply.status == 200 && |h.reply.body| == |thread| &&
              forall k :: 0 <= k < |thread| ==> h.reply.body[k] == ViewComment(s, thread[k])
  {
    match StringToNumber(postId)
    case None => Refuse(s, 500, "Failed to load comments")
    case Some(n) =>
      Handled(s, Ok(200, Map(Thread(s, n), (c: Comment) => ViewComment(s, c))), [])
  }

  /** The body of a new comment. */
  datatype CommentBody = CommentBody(postId: Val, message: Val)

  /** The message check `!message?.trim()`: a missing message or one that is blank after
      trimming is refused; a number has no `trim` and throws. */
  datatype MessageCheck = Blank | Throws | Text(message: string)

  function CheckMessage(message: Val): (r: MessageCheck)
    ensures r.Text? <==> message.Str? && Trim(message.s) != ""
    ensures r.Throws? <==> message.Num?
    ensures r.Text? ==> r.message == message.s
  {
    match message
    case Undefined => Blank
    case Null => Blank
    case Num(_) => Throws
    case Str(m) => if Trim(m) == "" then Blank else Text(m)
  }

  /** POST /api/comments by user `userId`: a falsy post id or a blank message is refused; a
      numeric message throws inside the handler. Otherwise the message is stored as sent,
      untrimmed, under the caller's id. */
  function Create(s: Store, userId: int, b: CommentBody): (h: Handled<string>)
    ensures !Truthy(b.postId) || CheckMessage(b.message).Blank? ==>
              h == Refuse(s, 400, "post_id and message are required")
    ensures Truthy(b.postId) && CheckMessage(b.message).Throws? ==>
              h == Refuse(s, 500, "Failed to add comment")
    ensures h.reply.Ok? <==> Truthy(b.postId) && CheckMessage(b.message).Text?
    ensures h.reply.Ok? ==>
              h.reply == Ok(201, "Comment added") &&
              h.store == CreateComment(s, Key(b.postId).value, userId, b.message.s)
    ensures h.destroyed == []
  {
    if !Truthy(b.postId) then Refuse(s, 400, "post_id and message are required")
    else
      match CheckMessage(b.message)
      case Blank => Refuse(s, 400, "post_id and message are required")
      case Throws => Refuse(s, 500, "Failed to add comment")
      case Text(m) => Handled(CreateComment(s, Key(b.postId).value, userId, m), Ok(201, "Comment added"), [])
  }

  /** A message of white space only is refused, but one with surrounding white space is stored
      with it. */
  lemma CreateKeepsWhiteSpace(s: Store, userId: int, postId: Val, m: string)
    requires Truthy(postId) && Trim(m) != ""
    ensures var h := Create(s, userId, CommentBody(postId, Str(" " + m)));
      h.reply.Ok? && h.store.comments[|s.comments|].message == " " + m
    ensures Create(s, userId, CommentBody(postId, Str(" "))).reply == Fail(400, "post_id and message are required")
  {
    TrimLeadingSpace(m);
    assert Trim(" ") == "" by {
      TrimLeadingSpace("");
    }
  }

  /** DELETE /api/comments/:id by user `userId` with role `role`. The id goes through unary `+`,
      and 0 or NaN is refused; then a missing comment is 404, and only its owner or an admin
      may delete it. */
  function Delete(s: Store, id: string, userId: int, role: string): (h: Handled<string>)
    ensures StringToNumber(id).None? || StringToNumber(id) == Some(0) ==>
              h == Refuse(s, 400, "Comment ID is required")
    ensures (StringToNumber(id).Some? && StringToNumber(id) != Some(0) &&
             CommentById(s, StringToNumber(id).value).None?) ==>
              h == Refuse(s, 404, "Comment not found")
    ensures h.reply.Ok? <==>
              StringToNumber(id).Some? && StringToNumber(id) != Some(0) &&
              CommentById(s, StringToNumber(id).value).Some? &&
              (role == "admin" || CommentById(s, StringToNumber(id).value).value.userId == userId)
    ensures h.reply.Ok? ==>
              h.reply == Ok(200, "Comment deleted successfully") &&
              h.store == DeleteComment(s, StringToNumber(id).value)
    ensures h.reply.Fail? ==> h.store == s
    ensures h.destroyed == []
  {
    match StringToNumber(id)
    case None => Refuse(s, 400, "Comment ID is required")
    case Some(n) =>
      if n == 0 then Refuse(s, 400, "Comment ID is required")
      else
        match CommentById(s, n)
        case None => Refuse(s, 404, "Comment not found")
        case Some(c) =>
          if role != "admin" && c.userId != userId then
            Refuse(s, 403, "You can only delete your own comments")
          else Handled(DeleteComment(s, n), Ok(200, "Comment deleted successfully"), [])
  }

  /** A non-admin cannot remove another user's comment; a delete removes that comment and keeps
      every other. */
  lemma DeleteOwnOnly(s: Store, id: string, userId: int, role: string)
    requires StringToNumber(id).Some?
    ensures var h := Delete(s, id, userId, role);
      var n := StringToNumber(id).value;
      ((role != "admin" &&
        forall i :: 0 <= i < |s.comments| && s.comments[i].id == n ==> s.comments[i].userId != userId)
         ==> h.store == s) &&
      (h.reply.Ok? ==>
         |h.store.comments| < |s.comments| &&
         forall i :: 0 <= i < |s.comments| ==> (s.comments[i] in h.store.comments <==> s.comments[i].id != n))
  {
    var h := Delete(s, id, userId, role);
    var n := StringToNumber(id).value;
    if h.reply.Ok? {
      var c := CommentById(s, n).value;
      assert c in s.comments && c !in h.store.comments;
      FilterShorter(s.comments, (x: Comment) => x.id != n, c);
    }
  }
}
