/**
 The inline arithmetic of the post-browsing screen: turning the past/future
 checkboxes into the timestamp bounds of the post query, and deriving the
 paging window (how many posts, where the page starts and ends, and the
 "next" and "previous" ranges) from the request parameters.

 Request parameters are PHP integers; an integer parameter that was not given
 reads as 0, which PHP's `!` treats as "unset". The query that fills in
 `posts_per_page` is database-backed, so that value is a parameter here.
 */
module EditShowPosts {

  /** The post-date restriction handed to the post query. */
  datatype DateFilter = DateFilter(showPast: int, showFuture: int, timestampMin: string, timestampMax: string)

  /** The past/future checkboxes: with neither box ticked both count as ticked; a bound is
      "now" exactly when the matching side is not shown. */
  function ShowPostsDateFilter(showPast: int, showFuture: int): (f: DateFilter)
    ensures showPast == 0 && showFuture == 0 ==> f.showPast == 1 && f.showFuture == 1
    ensures !(showPast == 0 && showFuture == 0) ==> f.showPast == showPast && f.showFuture == showFuture
    ensures f.timestampMin == "now" <==> f.showPast == 0
    ensures f.timestampMax == "now" <==> f.showFuture == 0
    ensures f.timestampMin != "now" ==> f.timestampMin == ""
    ensures f.timestampMax != "now" ==> f.timestampMax == ""
    // The query is never restricted to nothing: at most one bound is "now".
    ensures !(f.timestampMin == "now" && f.timestampMax == "now")
  {
    var past := if showPast == 0 && showFuture == 0 then 1 else showPast;
    var future := if showPast == 0 && showFuture == 0 then 1 else showFuture;
    DateFilter(past, future, if past == 0 then "now" else "", if future == 0 then "now" else "")
  }

  /** The paging parameters after their defaults, with the next and previous ranges. */
  datatype PageWindow = PageWindow(
    posts: int,
    postsPerPage: int,
    postStart: int,
    postEnd: int,
    nextStart: int,
    nextEnd: int,
    previousStart: int,
    previousEnd: int)

  /** The number of posts in the inclusive range `start..end`. */
  function RangeLength(start: int, end: int): int {
    end - start + 1
  }

  /** The paging parameters: defaults for `posts`, `poststart` and `postend`, then the
      ranges the "next" and "previous" links point at. */
  function ComputePageWindow(posts: int, postsPerPage: int, postStart: int, postEnd: int): (w: PageWindow)
    // posts: the request's value, else the list's page size, else 10 for both.
    ensures posts != 0 ==> w.posts == posts && w.postsPerPage == postsPerPage
    ensures posts == 0 && postsPerPage != 0 ==> w.posts == postsPerPage && w.postsPerPage == postsPerPage
    ensures posts == 0 && postsPerPage == 0 ==> w.posts == 10 && w.postsPerPage == 10
    ensures w.posts != 0
    ensures posts >= 0 && postsPerPage >= 0 ==> w.posts > 0
    // The window starts at the requested position, or at the first post.
    ensures w.postStart == (if postStart == 0 then 1 else postStart)
    // Without an explicit end the window holds exactly `posts` posts.
    ensures postEnd != 0 ==> w.postEnd == postEnd
    ensures postEnd == 0 ==> RangeLength(w.postStart, w.postEnd) == w.posts
    // "Next" starts right after the window and holds `posts` posts.
    ensures w.nextStart == w.postEnd + 1 && RangeLength(w.nextStart, w.nextEnd) == w.posts
    // "Previous" ends right before the window, never starts before post 1,
    // and is a full page whenever there is room for one.
    ensures w.previousEnd == w.postStart - 1
    ensures w.previousStart >= 1
    ensures w.previousStart == (if w.postStart - w.posts < 1 then 1 else w.postStart - w.posts)
    ensures w.postStart - w.posts >= 1 ==> RangeLength(w.previousStart, w.previousEnd) == w.posts
  {
    var (n, perPage) :=
      if posts != 0 then (posts, postsPerPage)
      else if postsPerPage != 0 then (postsPerPage, postsPerPage)
      else (10, 10);
    var start := if postStart == 0 then 1 else postStart;
    var end := if postEnd == 0 then start + n - 1 else postEnd;
    var previousStart := start - n;
    PageWindow(n, perPage, start, end, end + 1, end + n, if previousStart < 1 then 1 else previousStart, start - 1)
  }

  /** Following "next" from a default-sized page and then "previous" comes
      back to the same page. */
  lemma NextThenPreviousReturns(posts: int, postsPerPage: int, postStart: int)
    requires posts >= 0 && postsPerPage >= 0 && postStart >= 0
    ensures var w := ComputePageWindow(posts, postsPerPage, postStart, 0);
            var next := ComputePageWindow(w.posts, w.postsPerPage, w.nextStart, w.nextEnd);
            next.previousStart == w.postStart && next.previousEnd == w.postEnd
  {
  }

  /** Following "previous" from a default-sized page that is not the first
      one, and then "next", comes back to the same page. */
  lemma PreviousThenNextReturns(posts: int, postsPerPage: int, postStart: int)
    requires posts >= 0 && postsPerPage >= 0 && postStart >= 2
    ensures var w := ComputePageWindow(posts, postsPerPage, postStart, 0);
            var previous := ComputePageWindow(w.posts, w.postsPerPage, w.previousStart, w.previousEnd);
            previous.nextStart == w.postStart && previous.nextEnd == w.postEnd
  {
  }

  /** On the first page the "previous" range is 1..0; since an end of 0 reads
      as unset, following it shows the first page again. */
  lemma PreviousOfFirstPageIsFirstPage(posts: int, postsPerPage: int)
    requires posts >= 0 && postsPerPage >= 0
    ensures var w := ComputePageWindow(posts, postsPerPage, 1, 0);
            var previous := ComputePageWindow(w.posts, w.postsPerPage, w.previousStart, w.previousEnd);
            w.previousStart == 1 && w.previousEnd == 0
            && previous.postStart == w.postStart && previous.postEnd == w.postEnd
  {
  }
}
