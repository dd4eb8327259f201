/** The RSS feed of the latest posts. */
module Feeds {
  import opened Seqs
  import opened Text
  import opened Models

  const FeedLength: nat := 10
  const DescriptionLength: nat := 200

  /** `LatestPostsFeed.items`: the first ten published posts. */
  function Items(published: seq<PostRow>): (items: seq<PostRow>)
    ensures |items| <= FeedLength && |items| <= |published|
    ensures items == published[..|items|]
    ensures |published| <= FeedLength ==> items == published
    ensures |published| > FeedLength ==> |items| == FeedLength
  {
    Take(published, FeedLength)
  }

  /** `LatestPostsFeed.item_description`: the excerpt, or the first 200 characters of the content. */
  function ItemDescription(item: PostRow): (d: string)
    ensures item.excerpt != "" ==> d == item.excerpt
    ensures item.excerpt == "" ==> d == item.content[..Min(DescriptionLength, |item.content|)]
  {
    if item.excerpt != "" then item.excerpt else item.content[..Min(DescriptionLength, |item.content|)]
  }

  /**
   * A post saved with its excerpt left blank is described by the automatic
   * excerpt, so its description is empty only when its content is.
   */
  lemma SavedPostDescription(item: PostRow)
    requires item.excerpt == FilledExcerpt("", item.content)
    ensures ItemDescription(item) == AutoExcerpt(item.content)
    ensures ItemDescription(item) == "" <==> item.content == ""
  {
  }
}
