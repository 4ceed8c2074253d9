/** `StudyNews`: the list logic of the study-news popup. It covers:
    - how DEV.to articles and Edutopia RSS items become news items;
    - the curated entries between them;
    - the featured-first order of the feed;
    - the category, trending and saved selections;
    - toggling a saved item;
    - how a selected item's body is laid out. */
module StudyNews {
  import opened Seqs
  import opened NewsText

  datatype Category = News | Material | Video | Article

  /** The category tabs: `'all'` or one category. */
  datatype CategoryFilter = All | Only(category: Category)

  /** A feed entry. Image, timestamp and the optional flags are kept only as
      far as the lists use them; an absent `trending`/`featured` is `false`. */
  datatype NewsItem = NewsItem(
    id: string,
    title: string,
    description: string,
    content: Option<string>,
    category: Category,
    source: string,
    url: string,
    author: Option<string>,
    trending: bool,
    featured: bool)

  /** The fields of a DEV.to article the mapping reads. */
  datatype DevArticle = DevArticle(
    id: nat,
    title: string,
    description: Option<string>,
    userName: Option<string>,
    url: string,
    positiveReactions: int)

  /** The fields of an rss2json item the mapping reads. */
  datatype RssItem = RssItem(
    title: string,
    description: Option<string>,
    link: string,
    author: Option<string>)

  /** JavaScript's `x || fallback` on an optional string: the fallback when
      `x` is absent or empty. */
  function Or(x: Option<string>, fallback: string): (r: string)
    ensures x.Some? && x.value != "" ==> r == x.value
    ensures x.None? || x.value == "" ==> r == fallback
  {
    if x.Some? && x.value != "" then x.value else fallback
  }

  // ---------------------------------------------------------------------------
  // Mapping the fetched articles
  // ---------------------------------------------------------------------------

  /** The category of the DEV.to article at `index`, chosen by `index % 4`. */
  function CategoryAt(index: nat): (c: Category)
    ensures c == [News, Article, Material, Video][index % 4]
  {
    match index % 4
    case 0 => News
    case 1 => Article
    case 2 => Material
    case _ => Video
  }

  const DevDescriptionFallback := "Click to read more about this educational article."
  const DevSourceFallback := "DEV Community"

  /** The news item made from the DEV.to article at `index`. */
  function DevItem(a: DevArticle, index: nat): (x: NewsItem)
    ensures x.id == NatToString(a.id) && x.title == a.title && x.url == a.url
    ensures x.description == Or(a.description, DevDescriptionFallback)
    ensures x.source == Or(a.userName, DevSourceFallback)
    ensures x.description != "" && x.source != ""
    ensures x.content == a.description && x.author == a.userName
    ensures x.category == CategoryAt(index)
    ensures x.trending <==> a.positiveReactions > 50
    ensures x.featured <==> index == 0
  {
    NewsItem(
      NatToString(a.id),
      a.title,
      Or(a.description, DevDescriptionFallback),
      a.description,
      CategoryAt(index),
      Or(a.userName, DevSourceFallback),
      a.url,
      a.userName,
      a.positiveReactions > 50,
      index == 0)
  }

  /** `data.map((article, index) => ...)`: one item per article, in order.
      The index decides the category and whether the item is featured; the
      reaction count decides whether it is trending. */
  function DevItems(data: seq<DevArticle>): (r: seq<NewsItem>)
    ensures |r| == |data|
    ensures forall i :: 0 <= i < |r| ==> r[i] == DevItem(data[i], i)
    ensures forall i :: 0 <= i < |r| ==>
              && r[i].category == CategoryAt(i)
              && (r[i].trending <==> data[i].positiveReactions > 50)
              && (r[i].featured <==> i == 0)
  {
    seq(|data|, i requires 0 <= i < |data| => DevItem(data[i], i))
  }

  predicate IsFeatured(x: NewsItem) { x.featured }
  predicate IsTrending(x: NewsItem) { x.trending }

  function Featured(): NewsItem -> bool { (x: NewsItem) => IsFeatured(x) }
  function NotFeatured(): NewsItem -> bool { (x: NewsItem) => !IsFeatured(x) }

  /** The first article's item is the only featured one. */
  lemma OnlyFirstFeatured(data: seq<DevArticle>)
    ensures Filter(DevItems(data), Featured()) == if data == [] then [] else [DevItem(data[0], 0)]
  {
    var r := DevItems(data);
    if data != [] {
      var tail := r[1..];
      assert forall i :: 0 <= i < |tail| ==> tail[i] == DevItem(data[i + 1], i + 1);
      FilterNone(tail, Featured());
      assert r == [r[0]] + tail;
      FilterConcat([r[0]], tail, Featured());
    } else {
      assert r == [];
    }
  }

  const RssDescriptionFallback := "Educational resource from Edutopia."
  const RssLimit: nat := 8
  const RssTrendingCount: nat := 3

  /** `item.description?.replace(/<[^>]*>/g, '').slice(0, 200) || fallback`. */
  function CleanDescription(description: Option<string>): (r: string)
    ensures r != ""
    ensures |r| <= DescriptionLimit
    ensures NoTags(r)
    ensures description.None? ==> r == RssDescriptionFallback
    ensures description.Some? && StripTags(description.value) != "" ==>
              r == Truncate(StripTags(description.value), DescriptionLimit)
    ensures description.Some? && StripTags(description.value) == "" ==> r == RssDescriptionFallback
  {
    if description.None? then RssDescriptionFallback
    else
      var cut := Truncate(StripTags(description.value), DescriptionLimit);
      TruncateKeepsNoTags(StripTags(description.value), DescriptionLimit);
      if cut != "" then cut
      else
        assert forall i :: 0 <= i < |RssDescriptionFallback| ==> RssDescriptionFallback[i] != '<';
        RssDescriptionFallback
  }

  /** A description whose cleaned text is empty, such as one made only of
      tags, falls back just like a missing one. */
  lemma OnlyTagsFallsBack(inner: string)
    requires '>' !in inner
    ensures CleanDescription(Some("<" + inner + ">")) == RssDescriptionFallback
  {
    DropsCompleteTag(inner, "");
    assert "<" + inner + ">" + "" == "<" + inner + ">";
  }

  /** A tag-free description of at most 200 characters is kept as it is. */
  lemma ShortPlainDescriptionKept(d: string)
    requires d != "" && NoTags(d) && |d| <= DescriptionLimit
    ensures CleanDescription(Some(d)) == d
  {
    StripTagsFixesTagFree(d);
  }

  /** The item made from the RSS entry at `index`. */
  function RssItemAt(item: RssItem, index: nat): (x: NewsItem)
    ensures x.id == "edutopia-" + NatToString(index) && x.title == item.title && x.url == item.link
    ensures x.category == Article && x.source == "Edutopia" && !x.featured
    ensures x.trending <==> index < RssTrendingCount
    ensures x.description == CleanDescription(item.description)
    ensures x.content == if item.description.None? then None else Some(StripTags(item.description.value))
    ensures x.content.Some? ==> NoTags(x.content.value)
    ensures x.author == item.author
  {
    NewsItem(
      "edutopia-" + NatToString(index),
      item.title,
      CleanDescription(item.description),
      if item.description.None? then None else Some(StripTags(item.description.value)),
      Article,
      "Edutopia",
      item.link,
      item.author,
      index < RssTrendingCount,
      false)
  }

  /** `items.slice(0, 8).map(...)`. */
  function RssItems(items: seq<RssItem>): (r: seq<NewsItem>)
    ensures |r| == if |items| < RssLimit then |items| else RssLimit
    ensures forall i :: 0 <= i < |r| ==> r[i] == RssItemAt(items[i], i)
  {
    var used := if |items| <= RssLimit then items else items[..RssLimit];
    seq(|used|, i requires 0 <= i < |used| => RssItemAt(used[i], i))
  }

  /** Every RSS item is an unfeatured article whose description is clean and
      short. Only the first three are trending, and the ids are pairwise
      different. */
  lemma RssItemsShape(items: seq<RssItem>)
    ensures forall i :: 0 <= i < |RssItems(items)| ==>
              var x := RssItems(items)[i];
              && x.category == Article && !x.featured
              && (x.trending <==> i < RssTrendingCount)
              && |x.description| <= DescriptionLimit && NoTags(x.description)
    ensures forall i, j :: 0 <= i < j < |RssItems(items)| ==> RssItems(items)[i].id != RssItems(items)[j].id
  {
    var r := RssItems(items);
    forall i, j | 0 <= i < j < |r| ensures r[i].id != r[j].id {
      NatToStringInjective(i, j);
      var prefix := "edutopia-";
      var a, b := NatToString(i), NatToString(j);
      assert (prefix + a)[|prefix|..] == a;
      assert (prefix + b)[|prefix|..] == b;
    }
  }

  // The fixed titles and summaries of the curated entries.
  const PlacementGuideTitle := "Campus Placement Preparation Guide 2025"
  const PlacementGuideSummary := "Complete roadmap for cracking campus placements with aptitude, coding, and interview tips."
  const ExamStrategiesTitle := "Effective Exam Study Strategies That Actually Work"
  const ExamStrategiesSummary := "Science-backed techniques to maximize your exam preparation and performance."
  const HiringTitle := "Top 10 Companies Hiring Fresh Graduates in 2025"
  const HiringSummary := "Latest placement opportunities and salary packages for freshers across industries."
  const RevisionTitle := "Last Minute Revision Tips for Competitive Exams"
  const RevisionSummary := "Quick revision strategies to boost your score in the final days before exams."

  /** The four curated placement and exam entries, in their fixed order. Their
      long bodies are a parameter. */
  function Curated(bodies: seq<string>): (r: seq<NewsItem>)
    requires |bodies| == 4
    ensures |r| == 4
    ensures forall i :: 0 <= i < 4 ==> !r[i].featured && r[i].content == Some(bodies[i])
    ensures forall i :: 0 <= i < 4 ==> (r[i].trending <==> i < 3)
  {
    [ NewsItem("placement-1", PlacementGuideTitle, PlacementGuideSummary,
               Some(bodies[0]), Material, "Career Guide", "#", Some("Career Experts"), true, false),
      NewsItem("exam-1", ExamStrategiesTitle, ExamStrategiesSummary,
               Some(bodies[1]), Article, "Study Tips", "#", Some("Education Experts"), true, false),
      NewsItem("placement-2", HiringTitle, HiringSummary,
               Some(bodies[2]), News, "Placement News", "#", Some("Placement Cell"), true, false),
      NewsItem("exam-2", RevisionTitle, RevisionSummary,
               Some(bodies[3]), Article, "Exam Guide", "#", Some("Academic Mentors"), false, false) ]
  }

  /** `mappedNews` before the shuffle: the DEV.to items, then the curated
      entries, then the RSS items when the feed answered with a list. */
  function Collected(dev: seq<DevArticle>, bodies: seq<string>, rss: Option<seq<RssItem>>): (r: seq<NewsItem>)
    requires |bodies| == 4
    ensures |r| == |dev| + 4 + (if rss.Some? then |RssItems(rss.value)| else 0)
    ensures r[..|dev|] == DevItems(dev)
    ensures r[|dev|..|dev| + 4] == Curated(bodies)
    ensures r[|dev| + 4..] == if rss.Some? then RssItems(rss.value) else []
  {
    DevItems(dev) + Curated(bodies) + (if rss.Some? then RssItems(rss.value) else [])
  }

  /** The collected list holds exactly one featured item, the first
      article's, when there are articles, and none otherwise. */
  lemma CollectedFeatured(dev: seq<DevArticle>, bodies: seq<string>, rss: Option<seq<RssItem>>)
    requires |bodies| == 4
    ensures Filter(Collected(dev, bodies, rss), Featured()) == if dev == [] then [] else [DevItem(dev[0], 0)]
  {
    var c := Curated(bodies);
    var s := if rss.Some? then RssItems(rss.value) else [];
    OnlyFirstFeatured(dev);
    FilterNone(c, Featured());
    if rss.Some? {
      RssItemsShape(rss.value);
    }
    FilterNone(s, Featured());
    FilterConcat(DevItems(dev), c, Featured());
    FilterConcat(DevItems(dev) + c, s, Featured());
  }

  // ---------------------------------------------------------------------------
  // Featured-first order
  // ---------------------------------------------------------------------------

  /** `featured ? [featured, ...rest] : shuffled`: the first featured item,
      then every unfeatured one in order; later featured items are dropped. */
  function FeaturedFirst(s: seq<NewsItem>): (r: seq<NewsItem>)
    ensures FindFirst(s, Featured()).None? ==> r == s
    ensures FindFirst(s, Featured()).Some? ==>
              && |r| == 1 + |Filter(s, NotFeatured())|
              && r[0] == FindFirst(s, Featured()).value && r[0].featured
              && r[1..] == Filter(s, NotFeatured())
  {
    match FindFirst(s, Featured())
    case Some(f) => [f] + Filter(s, NotFeatured())
    case None => s
  }

  /** After the reorder there is at most one featured item, and when there is
      one it comes first; the unfeatured items keep their order. */
  lemma FeaturedFirstShape(s: seq<NewsItem>)
    ensures var r := FeaturedFirst(s);
            && Filter(r, NotFeatured()) == Filter(s, NotFeatured())
            && Filter(r, Featured()) == if FindFirst(s, Featured()).Some? then [r[0]] else []
  {
    var r := FeaturedFirst(s);
    var rest := Filter(s, NotFeatured());
    assert forall i :: 0 <= i < |rest| ==> !rest[i].featured by {
      forall i | 0 <= i < |rest| ensures !rest[i].featured {
        assert rest[i] in rest;
      }
    }
    FilterAll(rest, NotFeatured());
    FilterNone(rest, Featured());
    match FindFirst(s, Featured())
    case None =>
      FilterAll(s, NotFeatured());
      FilterNone(s, Featured());
    case Some(f) =>
      assert r == [f] + rest;
      FilterConcat([f], rest, NotFeatured());
      FilterConcat([f], rest, Featured());
  }

  /** Reordering twice is reordering once. */
  lemma FeaturedFirstIdempotent(s: seq<NewsItem>)
    ensures FeaturedFirst(FeaturedFirst(s)) == FeaturedFirst(s)
  {
    var r := FeaturedFirst(s);
    match FindFirst(s, Featured())
    case None =>
    case Some(f) =>
      var rest := Filter(s, NotFeatured());
      assert r == [f] + rest;
      FindFirstCons(f, rest, Featured());
      FeaturedFirstShape(s);
  }

  /** With exactly one featured item the reorder is a permutation: nothing
      is lost or duplicated. */
  lemma FeaturedFirstPermutes(s: seq<NewsItem>)
    requires |Filter(s, Featured())| == 1
    ensures multiset(FeaturedFirst(s)) == multiset(s)
  {
    var only := Filter(s, Featured());
    FindFirstOfSingleMatch(s, Featured());
    FilterPartition(s, Featured(), NotFeatured());
    assert only == [only[0]];
    assert FeaturedFirst(s) == only + Filter(s, NotFeatured());
  }

  // ---------------------------------------------------------------------------
  // Selections
  // ---------------------------------------------------------------------------

  function InCategory(c: Category): NewsItem -> bool { (x: NewsItem) => x.category == c }

  /** `filteredItems`: everything for `'all'`, otherwise the items of that
      category in feed order. */
  function FilteredItems(items: seq<NewsItem>, selected: CategoryFilter): (r: seq<NewsItem>)
    ensures selected == All ==> r == items
    ensures selected.Only? ==> r == Filter(items, InCategory(selected.category))
    ensures selected.Only? ==> forall x :: x in r <==> x in items && x.category == selected.category
  {
    match selected
    case All => items
    case Only(c) => Filter(items, InCategory(c))
  }

  /** The four category tabs split the feed: each item is under exactly the
      tab of its category, as often as it is in the feed. */
  lemma CategoryTabsPartition(items: seq<NewsItem>)
    ensures multiset(FilteredItems(items, Only(News))) + multiset(FilteredItems(items, Only(Material)))
            + multiset(FilteredItems(items, Only(Video))) + multiset(FilteredItems(items, Only(Article)))
            == multiset(items)
  {
    FilterPartition4(items, InCategory(News), InCategory(Material), InCategory(Video), InCategory(Article));
  }

  function Trending(): NewsItem -> bool { (x: NewsItem) => IsTrending(x) }

  /** `trendingItems`: the items flagged trending, in feed order. */
  function TrendingItems(items: seq<NewsItem>): (r: seq<NewsItem>)
    ensures forall x :: x in r <==> x in items && x.trending
    ensures forall x :: multiset(r)[x] == if x.trending then multiset(items)[x] else 0
    ensures r == Filter(items, Trending())
  {
    FilterMultiset(items, Trending());
    Filter(items, Trending())
  }

  /** The trending tab, numbered `index + 1`, keeps feed order: the trending
      items of two stretches of the feed are those of the first, then those
      of the second. */
  lemma TrendingInFeedOrder(a: seq<NewsItem>, b: seq<NewsItem>)
    ensures TrendingItems(a + b) == TrendingItems(a) + TrendingItems(b)
  {
    FilterConcat(a, b, Trending());
  }

  function IsSaved(saved: seq<string>): NewsItem -> bool { (x: NewsItem) => x.id in saved }

  /** `savedNewsItems`: the items whose id is saved, in feed order (not in
      the order they were saved). */
  function SavedNewsItems(items: seq<NewsItem>, saved: seq<string>): (r: seq<NewsItem>)
    ensures forall x :: x in r <==> x in items && x.id in saved
    ensures forall x :: multiset(r)[x] == if x.id in saved then multiset(items)[x] else 0
    ensures r == Filter(items, IsSaved(saved))
  {
    FilterMultiset(items, IsSaved(saved));
    Filter(items, IsSaved(saved))
  }

  /** The saved tab lists items in feed order: the saved items of two
      stretches of the feed are those of the first, then those of the second. */
  lemma SavedInFeedOrder(a: seq<NewsItem>, b: seq<NewsItem>, saved: seq<string>)
    ensures SavedNewsItems(a + b, saved) == SavedNewsItems(a, saved) + SavedNewsItems(b, saved)
  {
    FilterConcat(a, b, IsSaved(saved));
  }

  /** The order in which ids were saved does not matter: two saved lists with
      the same ids give the same saved tab. */
  lemma SavedOrderIgnored(items: seq<NewsItem>, saved: seq<string>, saved': seq<string>)
    requires forall id :: id in saved <==> id in saved'
    ensures SavedNewsItems(items, saved) == SavedNewsItems(items, saved')
  {
    FilterAgree(items, IsSaved(saved), IsSaved(saved'));
  }

  /** `featuredItem`: the first featured item, shown in the banner. */
  function FeaturedItem(items: seq<NewsItem>): (r: Option<NewsItem>)
    ensures r.None? <==> forall x :: x in items ==> !x.featured
    ensures r.Some? ==> r.value in items && r.value.featured
    ensures r.Some? ==> exists k :: 0 <= k < |items| && items[k] == r.value
                          && forall j :: 0 <= j < k ==> !items[j].featured
  {
    FindFirst(items, Featured())
  }

  /** On a reordered feed the banner shows the first item. */
  lemma BannerIsFirst(s: seq<NewsItem>)
    requires FeaturedItem(s).Some?
    ensures FeaturedItem(FeaturedFirst(s)) == Some(FeaturedFirst(s)[0])
  {
    var r := FeaturedFirst(s);
    assert r == [r[0]] + r[1..];
    FindFirstCons(r[0], r[1..], Featured());
  }

  // ---------------------------------------------------------------------------
  // Saving
  // ---------------------------------------------------------------------------

  function Other(id: string): string -> bool { (x: string) => x != id }

  /** The saved list after `toggleSaveItem(id)`: a saved id is removed with all
      its occurrences, an unsaved one is appended at the end. */
  function Toggled(saved: seq<string>, id: string): (r: seq<string>)
    ensures id in saved ==> r == Filter(saved, Other(id))
    ensures id !in saved ==> r == saved + [id]
  {
    if id in saved then Filter(saved, Other(id)) else saved + [id]
  }

  /** Toggling flips the membership of `id` and leaves every other id, and
      how often it occurs, as it was. */
  lemma ToggleFlips(saved: seq<string>, id: string)
    ensures id in Toggled(saved, id) <==> id !in saved
    ensures forall x :: x != id ==> multiset(Toggled(saved, id))[x] == multiset(saved)[x]
  {
    if id in saved {
      FilterMultiset(saved, Other(id));
    }
  }

  /** Toggling an unsaved id twice gives back the saved list. */
  lemma ToggleTwiceRestores(saved: seq<string>, id: string)
    requires id !in saved
    ensures Toggled(Toggled(saved, id), id) == saved
  {
    FilterConcat(saved, [id], Other(id));
    FilterAll(saved, Other(id));
    assert Filter([id], Other(id)) == [];
  }

  /** Toggling a saved id twice moves it to the end, once. */
  lemma ToggleTwiceMovesToEnd(saved: seq<string>, id: string)
    requires id in saved
    ensures Toggled(Toggled(saved, id), id) == Filter(saved, Other(id)) + [id]
  {
  }

  /** Toggling the id of a feed item adds that item to the saved list shown,
      or removes it from there. */
  lemma ToggleShowsInSaved(items: seq<NewsItem>, saved: seq<string>, x: NewsItem)
    requires x in items
    ensures x in SavedNewsItems(items, Toggled(saved, x.id)) <==> x !in SavedNewsItems(items, saved)
  {
    ToggleFlips(saved, x.id);
  }

  // ---------------------------------------------------------------------------
  // The detail view
  // ---------------------------------------------------------------------------

  /** `selectedNews.content || selectedNews.description`. */
  function BodyText(x: NewsItem): (r: string)
    ensures x.content.Some? && x.content.value != "" ==> r == x.content.value
    ensures x.content.None? || x.content.value == "" ==> r == x.description
  {
    Or(x.content, x.description)
  }

  // ---------------------------------------------------------------------------
  // The popup's state
  // ---------------------------------------------------------------------------

  class NewsPopup {
    var savedItems: seq<string>
    var newsItems: seq<NewsItem>
    var loading: bool
    var selectedCategory: CategoryFilter

    /** A popup as first mounted, with the saved list read from storage. */
    constructor (stored: seq<string>)
      ensures savedItems == stored && newsItems == [] && !loading && selectedCategory == All
    {
      savedItems := stored;
      newsItems := [];
      loading := false;
      selectedCategory := All;
    }

    /** `toggleSaveItem(id)`; the write to storage is not modelled. */
    method ToggleSaveItem(id: string)
      modifies this`savedItems
      ensures savedItems == Toggled(old(savedItems), id)
    {
      if id in savedItems {
        savedItems := Filter(savedItems, Other(id));
      } else {
        savedItems := savedItems + [id];
      }
    }

    method SelectCategory(c: CategoryFilter)
      modifies this`selectedCategory
      ensures selectedCategory == c
    {
      selectedCategory := c;
    }

    /** `fetchStudyNews`. What the network returns is given:
        - `dev` is the DEV.to answer, `None` when that fetch failed;
        - `rss` is the RSS items, `None` when that fetch failed or the
          answer had no item list;
        - `shuffled` is what the random sort made of the collected list;
        - `fallback` is the hard-coded list shown when the DEV.to fetch failed. */
    method FetchStudyNews(dev: Option<seq<DevArticle>>, bodies: seq<string>, rss: Option<seq<RssItem>>,
                          shuffled: seq<NewsItem>, fallback: seq<NewsItem>)
      requires |bodies| == 4
      requires dev.Some? ==> multiset(shuffled) == multiset(Collected(dev.value, bodies, rss))
      modifies this`newsItems, this`loading
      ensures !loading
      ensures dev.None? ==> newsItems == fallback
      ensures dev.Some? ==> newsItems == FeaturedFirst(shuffled)
      ensures dev.Some? ==> multiset(newsItems) == multiset(Collected(dev.value, bodies, rss))
      ensures dev.Some? && dev.value != [] ==> |newsItems| > 0 && newsItems[0] == DevItem(dev.value[0], 0)
    {
      loading := true;
      if dev.None? {
        newsItems := fallback;
      } else {
        var mapped := DevItems(dev.value);
        mapped := mapped + Curated(bodies);
        if rss.Some? {
          mapped := mapped + RssItems(rss.value);
        }
        assert mapped == Collected(dev.value, bodies, rss);
        ShuffledFeed(dev.value, bodies, rss, shuffled);
        newsItems := FeaturedFirst(shuffled);
      }
      loading := false;
    }

    /** The effect run when the popup opens: fetch only while the feed is empty. */
    method Open(dev: Option<seq<DevArticle>>, bodies: seq<string>, rss: Option<seq<RssItem>>,
                shuffled: seq<NewsItem>, fallback: seq<NewsItem>)
      requires |bodies| == 4
      requires dev.Some? ==> multiset(shuffled) == multiset(Collected(dev.value, bodies, rss))
      modifies this`newsItems, this`loading
      ensures old(newsItems) != [] ==> newsItems == old(newsItems) && loading == old(loading)
      ensures old(newsItems) == [] ==> !loading
      ensures old(newsItems) == [] && dev.None? ==> newsItems == fallback
      ensures old(newsItems) == [] && dev.Some? ==> newsItems == FeaturedFirst(shuffled)
      ensures old(newsItems) == [] && dev.Some? ==>
                multiset(newsItems) == multiset(Collected(dev.value, bodies, rss))
    {
      if newsItems == [] {
        FetchStudyNews(dev, bodies, rss, shuffled, fallback);
      }
    }
  }

  /** Whatever order the shuffle picks, the feed holds the collected items
      once each, and the first article's item leads it. */
  lemma ShuffledFeed(dev: seq<DevArticle>, bodies: seq<string>, rss: Option<seq<RssItem>>, shuffled: seq<NewsItem>)
    requires |bodies| == 4
    requires multiset(shuffled) == multiset(Collected(dev, bodies, rss))
    ensures multiset(FeaturedFirst(shuffled)) == multiset(Collected(dev, bodies, rss))
    ensures dev != [] ==> |FeaturedFirst(shuffled)| > 0 && FeaturedFirst(shuffled)[0] == DevItem(dev[0], 0)
    ensures dev == [] ==> FeaturedFirst(shuffled) == shuffled
  {
    CollectedFeatured(dev, bodies, rss);
    if dev != [] {
      ReorderOneFeatured(shuffled, Collected(dev, bodies, rss), DevItem(dev[0], 0));
    } else {
      ReorderNoFeatured(shuffled, Collected(dev, bodies, rss));
    }
  }

  /** Any order of a list with exactly one featured item `x` is reordered
      into a permutation of that list led by `x`. */
  lemma ReorderOneFeatured(shuffled: seq<NewsItem>, c: seq<NewsItem>, x: NewsItem)
    requires multiset(shuffled) == multiset(c)
    requires Filter(c, Featured()) == [x]
    ensures multiset(FeaturedFirst(shuffled)) == multiset(c)
    ensures |FeaturedFirst(shuffled)| > 0 && FeaturedFirst(shuffled)[0] == x
  {
    var featured := Filter(shuffled, Featured());
    FilterSameMultiset(shuffled, c, Featured());
    MultisetSingleton(featured, x);
    FeaturedFirstPermutes(shuffled);
    assert x in featured;
    var i :| 0 <= i < |shuffled| && shuffled[i] == x;
    assert Featured()(shuffled[i]);
    assert FindFirst(shuffled, Featured()).value in featured;
  }

  /** Any order of a list with no featured item is left as it is. */
  lemma ReorderNoFeatured(shuffled: seq<NewsItem>, c: seq<NewsItem>)
    requires multiset(shuffled) == multiset(c)
    requires Filter(c, Featured()) == []
    ensures FeaturedFirst(shuffled) == shuffled
  {
    var featured := Filter(shuffled, Featured());
    FilterSameMultiset(shuffled, c, Featured());
    assert featured == [];
    assert forall i :: 0 <= i < |shuffled| ==> !shuffled[i].featured by {
      forall i | 0 <= i < |shuffled| ensures !shuffled[i].featured {
        assert shuffled[i] !in featured;
      }
    }
  }
}
