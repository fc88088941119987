/** Community posts: the newest-first feed, creation with null-coalesced columns, updates that
    keep or replace the image, and deletion with its comments, restricted to the author or an
    admin. */
module Community {
  import opened Wrappers
  import opened Seqs
  import opened Sorting
  import opened Js
  import opened Db
  import opened Http
  import opened ImageHost

  /** `v || null` bound to a text column: a falsy value is stored as NULL, anything else as its
      string form. */
  function OrNull(v: Val): (r: Option<string>)
    ensures r.None? <==> !Truthy(v)
    ensures v.Str? && Truthy(v) ==> r == Some(v.s)
  {
    if Truthy(v) then Some(ToStr(v)) else None
  }

  /** `v || null` bound to an integer column. */
  function IdOrNull(v: Val): (r: Option<int>)
    ensures r.None? <==> !Truthy(v)
    ensures v.Num? && Truthy(v) ==> r == Some(v.n)
  {
    if Truthy(v) then Key(v) else None
  }

  /** `image || null` for a nullable path: an empty path becomes NULL. */
  function PathOrNull(image: Option<string>): (r: Option<string>)
    ensures r.None? <==> !Present(image)
    ensures Present(image) ==> r == image
  {
    if Present(image) then image else None
  }

  /** The fields of a new post, as the request gives them. */
  datatype NewPost = NewPost(title: Val, content: Val, snippet: Val, image: Option<string>,
                             authorId: Val)

  /** `INSERT INTO community_posts`: one row with a fresh id and the current time, each falsy
      field stored as NULL; nothing else changes. */
  function CreatePost(s: Store, p: NewPost): (s': Store)
    ensures |s'.posts| == |s.posts| + 1
    ensures s' == s.(posts := s.posts + [s'.posts[|s.posts|]])
    ensures var row := s'.posts[|s.posts|];
      (row.title.None? <==> !Truthy(p.title)) && (row.content.None? <==> !Truthy(p.content)) &&
      (row.snippet.None? <==> !Truthy(p.snippet)) && (row.image.None? <==> !Present(p.image)) &&
      (row.authorId.None? <==> !Truthy(p.authorId)) &&
      row.title == OrNull(p.title) && row.content == OrNull(p.content) &&
      row.snippet == OrNull(p.snippet) && row.image == PathOrNull(p.image) &&
      row.authorId == IdOrNull(p.authorId) && row.createdAt == s.clock &&
      forall i :: 0 <= i < |s.posts| ==> s.posts[i].id < row.id
  {
    var id := NextId(s.posts, (q: Post) => q.id);
    var row := Post(id, OrNull(p.title), OrNull(p.content), OrNull(p.snippet), PathOrNull(p.image),
                    IdOrNull(p.authorId), s.clock);
    s.(posts := s.posts + [row])
  }

  /** `UPDATE community_posts SET title, content, snippet[, image] WHERE id = ?`: the image
      column is written only when a truthy image is given; the text columns are always
      overwritten, a falsy value with NULL. Other rows are untouched. */
  function UpdatePost(s: Store, id: Option<int>, title: Val, content: Val, snippet: Val,
                      image: Option<string>): (s': Store)
    ensures s' == s.(posts := s'.posts) && |s'.posts| == |s.posts|
    ensures forall i :: 0 <= i < |s.posts| ==>
              var (was, now) := (s.posts[i], s'.posts[i]);
              (!Is(was.id, id) ==> now == was) &&
              (Is(was.id, id) ==>
                 now.id == was.id && now.authorId == was.authorId &&
                 now.createdAt == was.createdAt && now.title == OrNull(title) &&
                 now.content == OrNull(content) && now.snippet == OrNull(snippet) &&
                 now.image == (if Present(image) then image else was.image))
  {
    s.(posts := Map(s.posts, (p: Post) =>
      if !Is(p.id, id) then p
      else if Present(image) then
        p.(title := OrNull(title), content := OrNull(content), snippet := OrNull(snippet),
           image := PathOrNull(image))
      else p.(title := OrNull(title), content := OrNull(content), snippet := OrNull(snippet))))
  }

  /** `DELETE FROM comments WHERE post_id = ?` followed by `DELETE FROM community_posts WHERE
      id = ?`: the post and its comments go, every other post and comment stays. */
  function DeletePost(s: Store, id: Option<int>): (s': Store)
    ensures s' == s.(posts := s'.posts, comments := s'.comments)
    ensures forall i :: 0 <= i < |s'.posts| ==> s'.posts[i] in s.posts && !Is(s'.posts[i].id, id)
    ensures forall i :: 0 <= i < |s.posts| && !Is(s.posts[i].id, id) ==> s.posts[i] in s'.posts
    ensures forall i :: 0 <= i < |s'.comments| ==>
              s'.comments[i] in s.comments && !Is(s'.comments[i].postId, id)
    ensures forall i :: 0 <= i < |s.comments| && !Is(s.comments[i].postId, id) ==>
              s.comments[i] in s'.comments
  {
    var t := s.(comments := Filter(s.comments, (c: Comment) => !Is(c.postId, id)));
    t.(posts := Filter(t.posts, (p: Post) => !Is(p.id, id)))
  }

  /** `SELECT * FROM community_posts WHERE id = ?`: the first matching post. */
  function PostById(s: Store, id: Option<int>): (r: Option<Post>)
    ensures r.Some? ==> r.value in s.posts && Is(r.value.id, id)
    ensures r.None? <==> forall i :: 0 <= i < |s.posts| ==> !Is(s.posts[i].id, id)
  {
    match Find(s.posts, (p: Post) => Is(p.id, id))
    case None => None
    case Some(k) => Some(s.posts[k])
  }

  // ------------------------------------------------------------------------------------------
  // The feed

  /** A post as the feed shows it, with its author's name and image from the outer join. */
  datatype PostView = PostView(post: Post, author: Option<string>, authorImage: Option<string>)

  /** The feed order: newest first. */
  predicate NewerPost(a: Post, b: Post) {
    a.createdAt >= b.createdAt
  }

  /** Every post, newest first. */
  function SortedPosts(s: Store): (r: seq<Post>)
    ensures multiset(r) == multiset(s.posts)
    ensures SortedBy(r, NewerPost)
  {
    SortIsSorted(s.posts, NewerPost);
    Sort(s.posts, NewerPost)
  }

  /** The author of a post: the user whose id is its `author_id`; none for a NULL author or a
      deleted user. */
  function AuthorOf(users: seq<User>, authorId: Option<int>): (r: Option<User>)
    ensures r.Some? ==> r.value in users && Is(r.value.id, authorId)
    ensures r.None? <==> forall i :: 0 <= i < |users| ==> !Is(users[i].id, authorId)
  {
    match Find(users, (u: User) => Is(u.id, authorId))
    case None => None
    case Some(k) => Some(users[k])
  }

  /** A feed entry: the author's name (null without an author) and the post's and author's
      images, an empty one shown as null. */
  function ViewPost(s: Store, p: Post): (v: PostView)
    ensures v.post.(image := p.image) == p && v.post.image == PathOrNull(p.image)
    ensures AuthorOf(s.users, p.authorId).None? ==> v.author.None? && v.authorImage.None?
    ensures AuthorOf(s.users, p.authorId).Some? ==>
              var u := AuthorOf(s.users, p.authorId).value;
              v.author == Some(u.name) && v.authorImage == PathOrNull(u.image)
  {
    match AuthorOf(s.users, p.authorId)
    case None => PostView(p.(image := PathOrNull(p.image)), None, None)
    case Some(u) => PostView(p.(image := PathOrNull(p.image)), Some(u.name), PathOrNull(u.image))
  }

  /** GET /api/community: every post exactly once, newest first. */
  function GetAll(s: Store): (h: Handled<seq<PostView>>)
    ensures h.store == s && h.destroyed == [] && h.reply.Ok? && h.reply.status == 200
    ensures |h.reply.body| == |s.posts|
    ensures forall i :: 0 <= i < |h.reply.body| ==>
              h.reply.body[i] == ViewPost(s, SortedPosts(s)[i])
    ensures forall i, j :: 0 <= i < j < |h.reply.body| ==>
              h.reply.body[i].post.createdAt >= h.reply.body[j].post.createdAt
  {
    var sorted := SortedPosts(s);
    assert |sorted| == |multiset(s.posts)|;
    Handled(s, Ok(200, Map(sorted, (p: Post) => ViewPost(s, p))), [])
  }

  // ------------------------------------------------------------------------------------------
  // Endpoints

  /** The text fields of a create or update request. */
  datatype PostBody = PostBody(title: Val, content: Val, snippet: Val, authorId: Val)

  /** POST /api/community: title, content and author are required; the uploaded file's URL, if
      any, becomes the image. */
  function Create(s: Store, b: PostBody, file: Option<string>): (h: Handled<string>)
    ensures !(Truthy(b.title) && Truthy(b.content) && Truthy(b.authorId)) ==>
              h == Refuse(s, 400, "Title, content, and author_id are required!")
    ensures Truthy(b.title) && Truthy(b.content) && Truthy(b.authorId) ==>
              h.reply == Ok(200, "Post submitted") &&
              h.store == CreatePost(s, NewPost(b.title, b.content, b.snippet, file, b.authorId))
    ensures h.destroyed == []
  {
    if !(Truthy(b.title) && Truthy(b.content) && Truthy(b.authorId)) then
      Refuse(s, 400, "Title, content, and author_id are required!")
    else
      Handled(CreatePost(s, NewPost(b.title, b.content, b.snippet, file, b.authorId)),
              Ok(200, "Post submitted"), [])
  }

  /** A created post always has a title, content and author. */
  lemma CreateStoresRequired(s: Store, b: PostBody, file: Option<string>)
    ensures var h := Create(s, b, file);
      h.reply.Ok? ==>
        |h.store.posts| == |s.posts| + 1 &&
        h.store.posts[|s.posts|].title.Some? && h.store.posts[|s.posts|].content.Some? &&
        h.store.posts[|s.posts|].authorId.Some?
  {
  }

  /** The destroy calls for a post image that is being replaced or removed: one for a hosted
      image, none otherwise. */
  function DestroyImage(image: Option<string>): (r: seq<string>)
    ensures |r| <= 1
    ensures |r| == 1 <==> Present(image) && Hosted(image.value)
    ensures |r| == 1 ==> r[0] == PublicId(image.value)
  {
    if Present(image) && Hosted(image.value) then [PublicId(image.value)] else []
  }

  /** PUT /api/community/:id. The old row is read first; a missing post makes reading its image
      throw, so the request fails with nothing changed. A new file replaces the image, and the
      old image is destroyed when the host serves it; without a file the image is kept. The
      text fields are written as given, without validation. */
  function Update(s: Store, id: string, b: PostBody, file: Option<string>): (h: Handled<string>)
    ensures PostById(s, Some(KeyOf(id))).None? ==> h == Refuse(s, 500, "Failed to update post")
    ensures PostById(s, Some(KeyOf(id))).Some? ==>
              var was := PostById(s, Some(KeyOf(id))).value;
              h.reply == Ok(200, "Post updated") &&
              h.store == UpdatePost(s, Some(KeyOf(id)), b.title, b.content, b.snippet,
                                    if Present(file) then file else was.image) &&
              h.destroyed == (if Present(file) then DestroyImage(was.image) else [])
  {
    var key := Some(KeyOf(id));
    match PostById(s, key)
    case None => Refuse(s, 500, "Failed to update post")
    case Some(was) =>
      var image := if Present(file) then file else was.image;
      Handled(UpdatePost(s, key, b.title, b.content, b.snippet, image), Ok(200, "Post updated"),
              if Present(file) then DestroyImage(was.image) else [])
  }

  /** Without a new file an update destroys nothing and keeps the post's image; with one, the
      post shows the new file and only a hosted old image is destroyed. */
  lemma UpdateImageRule(s: Store, id: string, b: PostBody, file: Option<string>, i: nat)
    requires i < |s.posts| && s.posts[i].id == KeyOf(id)
    requires PostById(s, Some(KeyOf(id))) == Some(s.posts[i])
    ensures var h := Update(s, id, b, file);
      |h.store.posts| == |s.posts| &&
      (!Present(file) ==> h.destroyed == [] && h.store.posts[i].image == s.posts[i].image) &&
      (Present(file) ==> h.store.posts[i].image == file &&
                         (|h.destroyed| == 1 <==> Present(s.posts[i].image) && Hosted(s.posts[i].image.value)))
  {
  }

  /** DELETE /api/community/:id by user `userId` with role `role`. The id goes through unary
      `+`; a value that is not a number reaches the query as NaN, which the database rejects.
      A missing post is 404; only the author or an admin may delete. On success the post and
      its comments go and a hosted image is destroyed. */
  function Delete(s: Store, id: string, userId: int, role: string): (h: Handled<string>)
    ensures StringToNumber(id).None? ==> h == Refuse(s, 500, "Failed to delete post")
    ensures StringToNumber(id).Some? && PostById(s, StringToNumber(id)).None? ==>
              h == Refuse(s, 404, "Post not found")
    ensures h.reply.Ok? <==>
              StringToNumber(id).Some? && PostById(s, StringToNumber(id)).Some? &&
              (PostById(s, StringToNumber(id)).value.authorId == Some(userId) || role == "admin")
    ensures h.reply.Ok? ==>
              h.reply == Ok(200, "Post deleted") &&
              h.store == DeletePost(s, StringToNumber(id)) &&
              h.destroyed == DestroyImage(PostById(s, StringToNumber(id)).value.image)
    ensures h.reply.Fail? ==> h.store == s && h.destroyed == []
  {
    var key := StringToNumber(id);
    if key.None? then Refuse(s, 500, "Failed to delete post")
    else
      match PostById(s, key)
      case None => Refuse(s, 404, "Post not found")
      case Some(post) =>
        if post.authorId != Some(userId) && role != "admin" then
          Refuse(s, 403, "Not allowed to delete this post")
        else Handled(DeletePost(s, key), Ok(200, "Post deleted"), DestroyImage(post.image))
  }

  /** A post written by someone else survives a non-admin's delete; a delete that succeeds
      leaves no post with that id and none of its comments. */
  lemma DeleteAuthorised(s: Store, id: string, userId: int, role: string)
    requires StringToNumber(id).Some?
    ensures var h := Delete(s, id, userId, role);
      var n := StringToNumber(id).value;
      ((role != "admin" &&
        forall i :: 0 <= i < |s.posts| && s.posts[i].id == n ==> s.posts[i].authorId != Some(userId))
         ==> h.store == s) &&
      (h.reply.Ok? ==>
         (forall i :: 0 <= i < |h.store.posts| ==> h.store.posts[i].id != n) &&
         (forall i :: 0 <= i < |h.store.comments| ==> h.store.comments[i].postId != n))
  {
  }
}
