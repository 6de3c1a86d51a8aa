/**
 * The list bookkeeping of the reader's blog adapter (ReaderBlogAdapter): the
 * followed blogs, sorted by a name key and narrowed by a text filter, and the
 * recommended blogs, with a guard that keeps one load running at a time.
 */
module ReaderBlogs {
  import opened Optional
  import opened Text
  import opened Seqs

  /** Which list the adapter shows; fixed when it is created. */
  datatype ReaderBlogType = Recommended | Followed

  /**
   * A followed blog (ReaderBlog), reduced to the fields the adapter's logic
   * reads. A missing name or URL is the empty string.
   */
  datatype ReaderBlog = ReaderBlog(blogId: int, name: string, url: string)
  {
    predicate HasName() { name != "" }
    predicate HasUrl() { url != "" }
  }

  /** A recommended blog (ReaderRecommendedBlog); the adapter only counts and copies these. */
  datatype RecommendedBlog = RecommendedBlog(blogId: int, title: string, reason: string, blogUrl: string)

  /** What Filter.performFiltering hands to publishResults. */
  datatype FilterResults = FilterResults(values: seq<ReaderBlog>, count: int)

  /**
   * getBlogNameForComparison: the blog's name; failing that the host of its
   * URL (UrlUtils.getHost, passed in as `getHost`, None for a null host);
   * failing that the empty string. A null blog has the empty key.
   */
  function ComparisonKey(blog: Option<ReaderBlog>, getHost: string -> Option<string>): (key: string)
    ensures blog.Some? && blog.value.HasName() ==> key == blog.value.name
    ensures key == "" <==>
      || blog.None?
      || (!blog.value.HasName() && (!blog.value.HasUrl() || getHost(blog.value.url) in {None, Some("")}))
    ensures key != "" ==>
      blog.Some? && (key == blog.value.name || (blog.value.HasUrl() && getHost(blog.value.url) == Some(key)))
  {
    match blog
    case None => ""
    case Some(b) =>
      if b.HasName() then b.name
      else if b.HasUrl() then (match getHost(b.url) case None => "" case Some(h) => h)
      else ""
  }

  /** The comparator of the followed-blog sort: keys compared ignoring case. */
  predicate KeyLe(a: ReaderBlog, b: ReaderBlog, getHost: string -> Option<string>)
  {
    LeIgnoreCase(ComparisonKey(Some(a), getHost), ComparisonKey(Some(b), getHost))
  }

  lemma KeyLeTotalPreorder(a: ReaderBlog, b: ReaderBlog, c: ReaderBlog, getHost: string -> Option<string>)
    ensures KeyLe(a, b, getHost) || KeyLe(b, a, getHost)
    ensures KeyLe(a, b, getHost) && KeyLe(b, c, getHost) ==> KeyLe(a, c, getHost)
  {
    LeIgnoreCaseTotalPreorder(ComparisonKey(Some(a), getHost), ComparisonKey(Some(b), getHost),
                              ComparisonKey(Some(c), getHost));
  }

  /** The comparator handed to Collections.sort, as a value. */
  function ByName(getHost: string -> Option<string>): (ReaderBlog, ReaderBlog) -> bool
  {
    (a, b) => KeyLe(a, b, getHost)
  }

  lemma ByNameTotalPreorder(getHost: string -> Option<string>)
    ensures TotalPreorder(ByName(getHost))
  {
    var le := ByName(getHost);
    forall a, b ensures le(a, b) || le(b, a) {
      KeyLeTotalPreorder(a, b, b, getHost);
    }
    forall a, b, c | le(a, b) && le(b, c) ensures le(a, c) {
      KeyLeTotalPreorder(a, b, c, getHost);
    }
  }

  /** The followed blogs sorted by comparison key, ignoring case. */
  function SortByName(blogs: seq<ReaderBlog>, getHost: string -> Option<string>): (r: seq<ReaderBlog>)
    ensures SortedBy(r, ByName(getHost))
    ensures multiset(r) == multiset(blogs)
  {
    ByNameTotalPreorder(getHost);
    SortBy(blogs, ByName(getHost))
  }

  /** Does the blog's lower-cased name or lower-cased URL contain the lower-cased constraint? */
  predicate Matches(blog: ReaderBlog, lowerConstraint: string)
  {
    Contains(Lower(blog.name), lowerConstraint) || Contains(Lower(blog.url), lowerConstraint)
  }

  /**
   * The blogs that match, in their original order: every matching blog is
   * kept as often as it occurs and every other blog is dropped.
   */
  function Matching(blogs: seq<ReaderBlog>, lowerConstraint: string): (r: seq<ReaderBlog>)
    ensures IsSubsequence(r, blogs)
    ensures forall b :: multiset(r)[b] == if Matches(b, lowerConstraint) then multiset(blogs)[b] else 0
    decreases |blogs|
  {
    if blogs == [] then []
    else
      var init, last := blogs[..|blogs| - 1], blogs[|blogs| - 1];
      var r' := Matching(init, lowerConstraint);
      assert blogs == init + [last];
      if Matches(last, lowerConstraint) then
        assert (r' + [last])[..|r'|] == r';
        r' + [last]
      else
        assert IsSubsequence(r', init);
        r'
  }

  /**
   * What the followed-blog filter keeps for a constraint: everything when the
   * constraint is empty (TextUtils.isEmpty, which a null constraint also
   * satisfies), otherwise the matching blogs.
   */
  function Filtered(blogs: seq<ReaderBlog>, constraint: string): seq<ReaderBlog>
  {
    if constraint == "" then blogs else Matching(blogs, Lower(constraint))
  }

  /**
   * With a non-empty constraint a blog is in the filtered list iff it is in
   * the full list and matches; the filtered list is a subsequence of the
   * full one, so it never holds a blog the full list lacks and is never
   * longer. With the empty constraint nothing is dropped.
   */
  lemma FilteredExactlyMatching(blogs: seq<ReaderBlog>, constraint: string)
    ensures constraint == "" ==> Filtered(blogs, constraint) == blogs
    ensures IsSubsequence(Filtered(blogs, constraint), blogs)
    ensures forall b :: b in Filtered(blogs, constraint) ==> b in blogs
    ensures |Filtered(blogs, constraint)| <= |blogs|
    ensures constraint != "" ==> forall b ::
      b in Filtered(blogs, constraint) <==> b in blogs && Matches(b, Lower(constraint))
  {
    var r := Filtered(blogs, constraint);
    if constraint == "" {
      SubsequenceOfSelf(blogs);
    } else {
      forall b ensures b in r <==> b in blogs && Matches(b, Lower(constraint)) {
        assert b in r <==> multiset(r)[b] > 0;
        assert b in blogs <==> multiset(blogs)[b] > 0;
      }
    }
    forall b | b in r ensures b in blogs {
      SubsequenceMembers(r, blogs, b);
    }
    SubsequenceLength(r, blogs);
  }

  /**
   * The filter ignores the case of the constraint: filtering by its
   * lower-cased form keeps exactly the same blogs, because lower-casing keeps
   * an empty constraint empty and lower-casing twice changes nothing.
   */
  lemma FilterIgnoresConstraintCase(blogs: seq<ReaderBlog>, constraint: string)
    ensures Filtered(blogs, Lower(constraint)) == Filtered(blogs, constraint)
  {
    LowerIdempotent(constraint);
  }

  class ReaderBlogAdapter {
    const blogType: ReaderBlogType
    /** UrlUtils.getHost, which is not part of this model. */
    const getHost: string -> Option<string>

    var recommendedBlogs: seq<RecommendedBlog>
    var allFollowedBlogs: seq<ReaderBlog>
    var filteredFollowedBlogs: seq<ReaderBlog>
    /** The filter text; a null constraint is the empty string, as TextUtils.isEmpty treats both alike. */
    var filterConstraint: string
    var isTaskRunning: bool

    constructor (blogType: ReaderBlogType, getHost: string -> Option<string>)
      ensures this.blogType == blogType && this.getHost == getHost
      ensures recommendedBlogs == [] && allFollowedBlogs == [] && filteredFollowedBlogs == []
      ensures filterConstraint == "" && !isTaskRunning
    {
      this.blogType := blogType;
      this.getHost := getHost;
      recommendedBlogs, allFollowedBlogs, filteredFollowedBlogs := [], [], [];
      filterConstraint := "";
      isTaskRunning := false;
    }

    /** getItemCount: the size of the list this adapter shows. */
    function ItemCount(): (n: nat)
      reads this
      ensures blogType == Recommended ==> n == |recommendedBlogs|
      ensures blogType == Followed ==> n == |filteredFollowedBlogs|
    {
      match blogType
      case Recommended => |recommendedBlogs|
      case Followed => |filteredFollowedBlogs|
    }

    /** isEmpty: the shown list, the one of this adapter's type, has no blog. */
    predicate IsEmpty()
      reads this
      ensures IsEmpty() <==> match blogType
        case Recommended => recommendedBlogs == []
        case Followed => filteredFollowedBlogs == []
    {
      ItemCount() == 0
    }

    /** hasFilter: without a constraint the filter keeps every followed blog. */
    predicate HasFilter()
      reads this
      ensures !HasFilter() ==> Filtered(allFollowedBlogs, filterConstraint) == allFollowedBlogs
      ensures HasFilter() ==> Filtered(allFollowedBlogs, filterConstraint) == Matching(allFollowedBlogs, Lower(filterConstraint))
    {
      filterConstraint != ""
    }

    /**
     * FollowedBlogFilter.performFiltering: the whole followed list for an
     * empty constraint, otherwise a fresh list of the blogs whose lower-cased
     * name or URL contains the lower-cased constraint; `count` is the size.
     */
    method PerformFiltering(constraint: string) returns (results: FilterResults)
      ensures results.values == Filtered(allFollowedBlogs, constraint)
      ensures results.count == |results.values|
      ensures constraint == "" ==> results.values == allFollowedBlogs
      ensures constraint != "" ==> IsSubsequence(results.values, allFollowedBlogs)
    {
      if constraint == "" {
        results := FilterResults(allFollowedBlogs, |allFollowedBlogs|);
        return;
      }
      var blogs: seq<ReaderBlog> := [];
      var lowerCaseConstraint := Lower(constraint);
      var i := 0;
      while i < |allFollowedBlogs|
        invariant 0 <= i <= |allFollowedBlogs|
        invariant blogs == Matching(allFollowedBlogs[..i], lowerCaseConstraint)
      {
        var blog := allFollowedBlogs[i];
        assert allFollowedBlogs[..i + 1][..i] == allFollowedBlogs[..i];
        if Contains(Lower(blog.name), lowerCaseConstraint) {
          blogs := blogs + [blog];
        } else if Contains(Lower(blog.url), lowerCaseConstraint) {
          blogs := blogs + [blog];
        }
        i := i + 1;
      }
      assert allFollowedBlogs[..i] == allFollowedBlogs;
      results := FilterResults(blogs, |blogs|);
    }

    /**
     * FollowedBlogFilter.publishResults: the filtered list becomes the result
     * list, or stays empty when the count is 0. Returns what is reported to
     * the data-loaded listener, whether the adapter is now empty.
     */
    method PublishResults(results: FilterResults) returns (reportedEmpty: bool)
      modifies this`filteredFollowedBlogs
      ensures filteredFollowedBlogs == if results.count > 0 then results.values else []
      ensures reportedEmpty == IsEmpty()
      ensures blogType == Followed ==> (reportedEmpty <==> results.count <= 0 || results.values == [])
    {
      filteredFollowedBlogs := [];
      if results.count > 0 {
        filteredFollowedBlogs := filteredFollowedBlogs + results.values;
      }
      reportedEmpty := IsEmpty();
    }

    /** Runs the filter for `constraint` and publishes its result. */
    method RunFilter(constraint: string) returns (reportedEmpty: bool)
      modifies this`filteredFollowedBlogs
      ensures filteredFollowedBlogs == Filtered(allFollowedBlogs, constraint)
      ensures blogType == Followed ==> (reportedEmpty <==> Filtered(allFollowedBlogs, constraint) == [])
    {
      var results := PerformFiltering(constraint);
      reportedEmpty := PublishResults(results);
    }

    /** setFilter: remembers the constraint and narrows the followed list by it. */
    method SetFilter(constraint: string) returns (reportedEmpty: bool)
      modifies this`filterConstraint, this`filteredFollowedBlogs
      ensures filterConstraint == constraint
      ensures filteredFollowedBlogs == Filtered(allFollowedBlogs, constraint)
      ensures HasFilter() <==> constraint != ""
      ensures blogType == Followed ==> (reportedEmpty <==> filteredFollowedBlogs == [])
    {
      filterConstraint := constraint;
      reportedEmpty := RunFilter(filterConstraint);
    }

    /**
     * refresh: starts a load unless one is already running; starting it runs
     * LoadBlogsTask.onPreExecute, which sets the running flag.
     */
    method Refresh() returns (started: bool)
      modifies this`isTaskRunning
      ensures started <==> !old(isTaskRunning)
      ensures isTaskRunning
    {
      if isTaskRunning {
        return false;
      }
      isTaskRunning := true;
      started := true;
    }

    /** LoadBlogsTask.onCancelled. */
    method LoadCancelled()
      modifies this`isTaskRunning
      ensures !isTaskRunning
    {
      isTaskRunning := false;
    }

    /**
     * LoadBlogsTask.onPostExecute. The background step read `loadedRecommended`
     * or `loadedFollowed` from the local table and compared it with the list
     * held (isSameList, not part of this model): `changed` is its verdict. Only
     * a changed list is taken; a followed list is then sorted by name key and
     * the filtered list rebuilt. The running flag is cleared either way.
     */
    method LoadFinished(changed: bool, loadedRecommended: seq<RecommendedBlog>, loadedFollowed: seq<ReaderBlog>)
      returns (reportedEmpty: bool)
      modifies this`recommendedBlogs, this`allFollowedBlogs, this`filteredFollowedBlogs, this`isTaskRunning
      ensures !isTaskRunning
      ensures reportedEmpty == IsEmpty()
      ensures blogType == Recommended ==> (reportedEmpty <==> recommendedBlogs == [])
      ensures blogType == Followed ==> (reportedEmpty <==> filteredFollowedBlogs == [])
      ensures !changed || blogType == Followed ==> recommendedBlogs == old(recommendedBlogs)
      ensures !changed || blogType == Recommended ==>
        allFollowedBlogs == old(allFollowedBlogs) && filteredFollowedBlogs == old(filteredFollowedBlogs)
      ensures changed && blogType == Recommended ==> recommendedBlogs == loadedRecommended
      ensures changed && blogType == Followed ==>
        && allFollowedBlogs == SortByName(loadedFollowed, getHost)
        && filteredFollowedBlogs == Filtered(allFollowedBlogs, filterConstraint)
    {
      if changed {
        match blogType
        case Recommended =>
          recommendedBlogs := loadedRecommended;
        case Followed =>
          allFollowedBlogs := SortByName(loadedFollowed, getHost);
          if HasFilter() {
            var _ := RunFilter(filterConstraint);
          } else {
            filteredFollowedBlogs := [];
            filteredFollowedBlogs := filteredFollowedBlogs + allFollowedBlogs;
          }
      }
      isTaskRunning := false;
      reportedEmpty := IsEmpty();
    }
  }

  /**
   * After a changed followed load the full list is the loaded list, sorted
   * by key ignoring case, and the filtered list is the full list when there
   * is no filter and its matching blogs, in sorted order, otherwise.
   */
  method LoadFollowedSortsAndRefilters(adapter: ReaderBlogAdapter, loaded: seq<ReaderBlog>)
    requires adapter.blogType == Followed
    modifies adapter
    ensures SortedBy(adapter.allFollowedBlogs, ByName(adapter.getHost))
    ensures multiset(adapter.allFollowedBlogs) == multiset(loaded)
    ensures !adapter.HasFilter() ==> adapter.filteredFollowedBlogs == adapter.allFollowedBlogs
    ensures adapter.HasFilter() ==> IsSubsequence(adapter.filteredFollowedBlogs, adapter.allFollowedBlogs)
    ensures !adapter.isTaskRunning
  {
    var _ := adapter.LoadFinished(true, [], loaded);
    FilteredExactlyMatching(adapter.allFollowedBlogs, adapter.filterConstraint);
  }
}
