/** The blog list page: the cover image of a post, the delete handler and the totals shown
    above the table. */
module BlogDashboard {

  import opened Wrappers
  import Lists
  import BlogCreate

  /** A stored content block as the page reads it. */
  datatype StoredBlock = StoredBlock(kind: BlogCreate.Kind, value: string)

  /** A post as the page reads it. */
  datatype BlogEntry = BlogEntry(id: string, title: string, likes: int, views: int, createdAt: string, content: seq<StoredBlock>)

  function KindOf(b: StoredBlock): BlogCreate.Kind
  {
    b.kind
  }

  /** `getFirstImage`: the value of the first image block, or `null` when there is none. */
  function FirstImage(content: seq<StoredBlock>): (r: Option<string>)
    ensures r.None? <==> forall j | 0 <= j < |content| :: content[j].kind != BlogCreate.Image
    ensures r.Some? ==> exists i | 0 <= i < |content| ::
              content[i].kind == BlogCreate.Image && content[i].value == r.value
              && forall j | 0 <= j < i :: content[j].kind != BlogCreate.Image
  {
    var i := Lists.FindIndex(content, KindOf, BlogCreate.Image);
    if i == -1 then None else Some(content[i].value)
  }

  /** Text blocks before the first image do not change the cover. */
  lemma {:induction false} FirstImageSkipsText(texts: seq<StoredBlock>, rest: seq<StoredBlock>)
    requires forall j | 0 <= j < |texts| :: texts[j].kind == BlogCreate.Text
    ensures FirstImage(texts + rest) == FirstImage(rest)
  {
    var all := texts + rest;
    if FirstImage(all).Some? {
      var i :| 0 <= i < |all| && all[i].kind == BlogCreate.Image && all[i].value == FirstImage(all).value
        && forall j | 0 <= j < i :: all[j].kind != BlogCreate.Image;
      assert i >= |texts|;
      assert rest[i - |texts|] == all[i];
      assert FirstImage(rest).Some? && FirstImage(rest).value == all[i].value by {
        var i' :| 0 <= i' < |rest| && rest[i'].kind == BlogCreate.Image && rest[i'].value == FirstImage(rest).value
          && forall j | 0 <= j < i' :: rest[j].kind != BlogCreate.Image;
        assert all[i' + |texts|] == rest[i'];
        assert i' == i - |texts|;
      }
    } else {
      assert forall j | 0 <= j < |rest| :: rest[j] == all[j + |texts|];
    }
  }

  function LikesOf(b: BlogEntry): int
  {
    b.likes
  }

  function ViewsOf(b: BlogEntry): int
  {
    b.views
  }

  function IdOf(b: BlogEntry): string
  {
    b.id
  }

  /** `totalBlogs`, `totalLikes` and `totalViews`. */
  datatype Totals = Totals(blogs: nat, likes: int, views: int)

  /** The three totals: the number of posts and the sums of their likes and views, all 0 for
      an empty list. */
  function Stats(blogs: seq<BlogEntry>): (t: Totals)
    ensures t.blogs == |blogs|
    ensures blogs == [] ==> t == Totals(0, 0, 0)
  {
    Totals(|blogs|, Lists.Sum(blogs, LikesOf), Lists.Sum(blogs, ViewsOf))
  }

  /** One post's totals are its own counters. */
  lemma StatsOfOne(b: BlogEntry)
    ensures Stats([b]) == Totals(1, b.likes, b.views)
  {
    assert [b][..0] == [];
    assert Lists.Sum([b], LikesOf) == Lists.Sum([], LikesOf) + LikesOf(b);
    assert Lists.Sum([b], ViewsOf) == b.views;
  }

  /** The totals of two lists put together are the sums of their totals. */
  lemma StatsAppend(a: seq<BlogEntry>, b: seq<BlogEntry>)
    ensures Stats(a + b) == Totals(Stats(a).blogs + Stats(b).blogs, Stats(a).likes + Stats(b).likes, Stats(a).views + Stats(b).views)
  {
    Lists.SumAppend(a, b, LikesOf);
    Lists.SumAppend(a, b, ViewsOf);
  }

  /** New posts start at 0 likes and 0 views and counters only grow, so the totals are never
      negative. */
  lemma StatsNonNegative(blogs: seq<BlogEntry>)
    requires forall j | 0 <= j < |blogs| :: blogs[j].likes >= 0 && blogs[j].views >= 0
    ensures Stats(blogs).likes >= 0 && Stats(blogs).views >= 0
  {
    Lists.SumNonNegative(blogs, LikesOf);
    Lists.SumNonNegative(blogs, ViewsOf);
  }

  /** `handleDelete`: nothing happens unless the user confirms; once the request settles,
      whatever its status, every post with that id leaves the list; if the request rejects
      the handler stops before touching the list. */
  function HandleDelete(blogs: seq<BlogEntry>, id: string, confirmed: bool, requestSettles: bool): (r: seq<BlogEntry>)
    ensures !confirmed || !requestSettles ==> r == blogs
    ensures confirmed && requestSettles ==>
              (forall j | 0 <= j < |r| :: r[j].id != id)
              && forall j | 0 <= j < |blogs| && blogs[j].id != id :: blogs[j] in r
    ensures confirmed && requestSettles ==>
              forall b :: multiset(r)[b] == if b.id == id then 0 else multiset(blogs)[b]
    ensures |r| <= |blogs|
  {
    if confirmed && requestSettles then
      Lists.RemoveKeyKeepsOthers(blogs, IdOf, id);
      Lists.RemoveKeySpec(blogs, IdOf, id);
      Lists.RemoveKey(blogs, IdOf, id)
    else blogs
  }

  /** After a delete the totals drop by exactly the counters of the removed posts. */
  lemma DeleteLowersTotals(blogs: seq<BlogEntry>, id: string)
    ensures var after := Stats(HandleDelete(blogs, id, true, true));
      var removed := Stats(Lists.WithKey(blogs, IdOf, id));
      after.blogs + removed.blogs == |blogs|
      && after.likes + removed.likes == Stats(blogs).likes
      && after.views + removed.views == Stats(blogs).views
  {
    assert HandleDelete(blogs, id, true, true) == Lists.RemoveKey(blogs, IdOf, id);
    Lists.RemoveKeySplit(blogs, IdOf, id, LikesOf);
    Lists.RemoveKeySplit(blogs, IdOf, id, ViewsOf);
  }

  /** With non-negative counters a delete never raises a total. */
  lemma DeleteNeverRaisesTotals(blogs: seq<BlogEntry>, id: string, confirmed: bool, requestSettles: bool)
    requires forall j | 0 <= j < |blogs| :: blogs[j].likes >= 0 && blogs[j].views >= 0
    ensures Stats(HandleDelete(blogs, id, confirmed, requestSettles)).likes <= Stats(blogs).likes
    ensures Stats(HandleDelete(blogs, id, confirmed, requestSettles)).views <= Stats(blogs).views
  {
    if confirmed && requestSettles {
      assert HandleDelete(blogs, id, confirmed, requestSettles) == Lists.RemoveKey(blogs, IdOf, id);
      Lists.RemoveKeySumAtMost(blogs, IdOf, id, LikesOf);
      Lists.RemoveKeySumAtMost(blogs, IdOf, id, ViewsOf);
    }
  }
}
