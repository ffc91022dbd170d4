/**
 The feed of one community: which view the query state selects (loading,
 error or the list), and the heading, a slug of the community name taken
 from the first post.
 */
module CommunityDisplay {
  import opened Strings

  /** The embedded community record of a post. */
  datatype Community = Community(name: string)

  /** A post of the feed as fetched with its community. */
  datatype Post = Post(id: int, title: string, content: string, communities: Option<Community>)

  /** The state of the feed query: still loading, the message of the error it
      failed with, and the posts it returned. */
  datatype FeedQuery = FeedQuery(isLoading: bool, error: Option<string>, data: Option<seq<Post>>)

  datatype FeedBody = PostItems(posts: seq<Post>) | EmptyNotice(text: string)

  datatype View =
    | LoadingView(text: string)
    | ErrorView(text: string)
    | FeedView(heading: string, body: FeedBody)

  const LoadingText := "Loading posts..."
  const ErrorPrefix := "Error fetching data: "
  const DefaultHeading := "community_feed"
  const NoPostsText := "No posts found in this community yet."

  /** `data?.[0]?.communities?.name`: the name comes from the first post only. */
  function CommunityName(data: Option<seq<Post>>): (name: Option<string>)
    ensures name.Some? <==> data.Some? && |data.value| > 0 && data.value[0].communities.Some?
    ensures name.Some? ==> name.value == data.value[0].communities.value.name
  {
    if data.Some? && |data.value| > 0 && data.value[0].communities.Some? then
      Some(data.value[0].communities.value.name)
    else
      None
  }

  /** `name.toLowerCase().replace(/\s/g, '_')`. */
  function Slug(name: string): (slug: string)
  {
    ReplaceWhitespace(ToLower(name), '_')
  }

  /** The slug keeps the length of the name; each white-space character becomes
      `_` on its own, and every other character is lower-cased. */
  lemma SlugShape(name: string)
    ensures |Slug(name)| == |name|
    ensures forall i :: 0 <= i < |name| ==>
      Slug(name)[i] == if IsWhitespace(name[i]) then '_' else LowerChar(name[i])
  {
    forall i | 0 <= i < |name|
      ensures Slug(name)[i] == if IsWhitespace(name[i]) then '_' else LowerChar(name[i])
    {
      assert ToLower(name)[i] == LowerChar(name[i]);
      assert IsWhitespace(LowerChar(name[i])) <==> IsWhitespace(name[i]);
    }
  }

  /** A slug holds no white space and no upper-case letter. */
  lemma SlugIsClean(name: string)
    ensures forall i :: 0 <= i < |Slug(name)| ==>
      !IsWhitespace(Slug(name)[i]) && !('A' <= Slug(name)[i] <= 'Z')
  {
    SlugShape(name);
  }

  /** Making a slug of a slug changes nothing. */
  lemma SlugIdempotent(name: string)
    ensures Slug(Slug(name)) == Slug(name)
  {
    var s := Slug(name);
    SlugShape(name);
    SlugShape(s);
    SlugIsClean(name);
    assert forall i :: 0 <= i < |s| ==> Slug(s)[i] == s[i];
  }

  /** The heading: the slug of a present, non-empty name, else "community_feed". */
  function Heading(name: Option<string>): (heading: string)
  {
    if Truthy(name) then Slug(name.value) else DefaultHeading
  }

  /** The heading is never empty and never holds white space; for a name it
      has the name's length. */
  lemma HeadingIsClean(name: Option<string>)
    ensures Heading(name) != ""
    ensures Truthy(name) ==> |Heading(name)| == |name.value|
    ensures forall i :: 0 <= i < |Heading(name)| ==> !IsWhitespace(Heading(name)[i])
  {
    if Truthy(name) {
      SlugShape(name.value);
      SlugIsClean(name.value);
    }
  }

  /** The view of the feed: loading wins over an error, an error over the
      list; the list shows one item per post in order, or the empty notice
      when there is no post. */
  function Render(q: FeedQuery): (v: View)
    ensures q.isLoading ==> v == LoadingView(LoadingText)
    ensures !q.isLoading && q.error.Some? ==> v == ErrorView(ErrorPrefix + q.error.value)
    ensures !q.isLoading && q.error.None? ==>
      v.FeedView? && v.heading == Heading(CommunityName(q.data))
    ensures v.FeedView? ==> (v.body.PostItems? <==> q.data.Some? && |q.data.value| > 0)
    ensures v.FeedView? && v.body.PostItems? ==> v.body.posts == q.data.value
    ensures v.FeedView? && v.body.EmptyNotice? ==> v.body.text == NoPostsText
  {
    if q.isLoading then
      LoadingView(LoadingText)
    else if q.error.Some? then
      ErrorView(ErrorPrefix + q.error.value)
    else
      var body := if q.data.Some? && |q.data.value| > 0 then PostItems(q.data.value)
                  else EmptyNotice(NoPostsText);
      FeedView(Heading(CommunityName(q.data)), body)
  }

  /** Only the first post decides the heading: the posts after it may be
      anything, and a list whose first post has no name, an empty list and a
      missing list all give "community_feed". */
  lemma HeadingFromFirstPost(first: Post, rest: seq<Post>, others: seq<Post>)
    ensures var q1 := FeedQuery(false, None, Some([first] + rest));
            var q2 := FeedQuery(false, None, Some([first] + others));
            Render(q1).heading == Render(q2).heading
    ensures first.communities.None? || first.communities.value.name == "" ==>
      Render(FeedQuery(false, None, Some([first] + rest))).heading == DefaultHeading
    ensures Render(FeedQuery(false, None, Some([]))).heading == DefaultHeading
    ensures Render(FeedQuery(false, None, None)).heading == DefaultHeading
  {
  }
}
