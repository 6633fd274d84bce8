/**
 * The online post clusterer `PostClusterer`: a store of clusters keyed by
 * 1-based integer ids, and the operations that look up the cluster a new
 * post belongs to, open a new cluster, and count a post into a cluster.
 *
 * A post joins a cluster in one of two ways. A live cluster whose link
 * domain equals the post's (non-empty, non-social) link domain wins at once,
 * the first one in id order. Otherwise the post goes to the live cluster
 * whose representative text is most similar to the post's text, provided
 * the two texts share enough words and the similarity is above the
 * clusterer's threshold.
 *
 * The clock is a parameter (`now`, an integer timestamp in microseconds),
 * and the TF-IDF cosine similarity is an oracle `sim` whose None stands for
 * the vectoriser raising an exception.
 */
module Clustering {
  import opened Wrappers
  import opened Normalize
  import opened LinkDomain
  import opened Overlap

  // ---------------------------------------------------------------------
  // Posts and clusters

  /** A post as the clusterer reads it; an absent `content` or `url` reads as "". */
  datatype Post = Post(id: string, title: string, content: Option<string>, url: Option<string>)

  /** One record of the store. */
  datatype Cluster = Cluster(
    representativePostId: string,
    representativeText: string,
    domain: string,
    createdAt: int,
    postCount: nat,
    title: string)

  /** 24 hours, in microseconds. */
  const StaleWindow: int := 24 * 60 * 60 * 1000000

  /** Link domains that never take the domain shortcut. */
  const SocialDomains: seq<string> := ["twitter.com", "youtube.com"]

  /** The similarity of (cluster text, post text); None where computing it raises. */
  type Similarity = (string, string) -> Option<real>

  /** Whether the keyword pre-filter lets a (post text, cluster text) pair through. */
  type Prefilter = (string, string) -> bool

  /** The pre-filter of `find_similar_cluster`: a keyword overlap of at least 0.3. */
  predicate PassesPrefilter(text: string, clusterText: string) {
    !BelowPrefilter(KeywordOverlap(text, clusterText))
  }

  /** `_is_cluster_stale`: the cluster is strictly older than 24 hours. */
  predicate IsStale(c: Cluster, now: int) {
    now - c.createdAt > StaleWindow
  }

  /** The normalised text of a post: title twice, then the body. */
  function PostText(p: Post): (r: string)
    ensures NormalForm(r)
  {
    Preprocess(p.title, p.content.GetOr(""))
  }

  /** The link domain of a post; a post without a link has none. */
  function PostDomain(p: Post): (r: string)
    ensures p.url.None? ==> r == ""
  {
    ExtractDomain(p.url.GetOr(""))
  }

  /** The record `create_cluster` stores for post p at time now: live, counting that one post, with normalised text. */
  function NewCluster(p: Post, now: int): (r: Cluster)
    ensures r.postCount == 1 && !IsStale(r, now) && NormalForm(r.representativeText)
  {
    Cluster(p.id, PostText(p), PostDomain(p), now, 1, p.title)
  }

  /** A cluster takes a post with link domain d at once: it is live and has the same non-empty, non-social domain. */
  predicate ShortcutHit(c: Cluster, d: string, now: int) {
    !IsStale(c, now) && d != "" && d == c.domain && d !in SocialDomains
  }

  /**
   * The score with which cluster c competes for a post with normalised text
   * `text` on the text path: None when the loop skips c (stale, keyword
   * overlap below 0.3, similarity raising) or when its similarity could
   * never replace the running best (not above the threshold, or not above
   * the initial best of 0).
   */
  function Score(c: Cluster, text: string, now: int, passes: Prefilter, sim: Similarity, threshold: real): (r: Option<real>)
    ensures r.Some? ==> !IsStale(c, now) && passes(text, c.representativeText)
    ensures r.Some? ==> sim(c.representativeText, text) == r && r.value > threshold && r.value > 0.0
  {
    if IsStale(c, now) || !passes(text, c.representativeText) then None
    else match sim(c.representativeText, text)
      case None => None
      case Some(s) => if s > threshold && s > 0.0 then Some(s) else None
  }

  // ---------------------------------------------------------------------
  // The store

  /** The ids of the store are exactly 1..size, so id order is insertion order. */
  ghost predicate Dense(m: map<int, Cluster>) {
    forall k :: k in m <==> 1 <= k <= |m|
  }

  ghost predicate HasIds(m: map<int, Cluster>, n: nat) {
    forall k :: 1 <= k <= n ==> k in m
  }

  /** The first of the ids 1..n whose cluster takes the domain shortcut. */
  function FirstShortcut(m: map<int, Cluster>, n: nat, d: string, now: int): (r: Option<int>)
    requires HasIds(m, n)
    ensures r.Some? ==> 1 <= r.value <= n && ShortcutHit(m[r.value], d, now)
    ensures r.Some? ==> forall k :: 1 <= k < r.value ==> !ShortcutHit(m[k], d, now)
    ensures r.None? ==> forall k :: 1 <= k <= n ==> !ShortcutHit(m[k], d, now)
  {
    if n == 0 then None
    else match FirstShortcut(m, n - 1, d, now)
      case Some(k) => Some(k)
      case None => if ShortcutHit(m[n], d, now) then Some(n) else None
  }

  /**
   * The running best after visiting 1..n in order, each with score f(k):
   * only an id with a score competes, and it replaces the running best only
   * with a strictly higher score.
   */
  function FirstMax(f: int -> Option<real>, n: nat): (r: Option<int>)
    ensures r.Some? ==> 1 <= r.value <= n && f(r.value).Some?
  {
    if n == 0 then None
    else
      var prev := FirstMax(f, n - 1);
      match f(n)
      case None => prev
      case Some(s) => if prev.None? || s > f(prev.value).value then Some(n) else prev
  }

  /** The score of the running best, or 0 while there is none. */
  function BestScore(f: int -> Option<real>, n: nat): real {
    match FirstMax(f, n)
    case None => 0.0
    case Some(k) => f(k).value
  }

  /** The text-path score of every id of the store; ids outside it have none. */
  function Scores(m: map<int, Cluster>, text: string, now: int, passes: Prefilter, sim: Similarity, threshold: real): int -> Option<real> {
    k => if k in m then Score(m[k], text, now, passes, sim, threshold) else None
  }

  /**
   * What the loop of `find_similar_cluster` returns for a post with
   * normalised text `text` and link domain `domain`: the first
   * domain-shortcut cluster if there is one, and otherwise the best cluster
   * on the text path. A stale cluster is never returned.
   */
  function FindIn(m: map<int, Cluster>, text: string, domain: string, now: int, passes: Prefilter, sim: Similarity, threshold: real): (r: Option<int>)
    requires Dense(m)
    ensures r.Some? ==> r.value in m && 1 <= r.value && !IsStale(m[r.value], now)
  {
    match FirstShortcut(m, |m|, domain, now)
    case Some(k) => Some(k)
    case None => FirstMax(Scores(m, text, now, passes, sim, threshold), |m|)
  }

  /** What `find_similar_cluster` returns for post p: nothing on an empty store, otherwise the loop's result. */
  function FindSpec(m: map<int, Cluster>, p: Post, now: int, sim: Similarity, threshold: real): (r: Option<int>)
    requires Dense(m)
    ensures r.Some? ==> r.value in m && 1 <= r.value && !IsStale(m[r.value], now)
    ensures |m| == 0 ==> r.None?
  {
    if |m| == 0 then None else FindIn(m, PostText(p), PostDomain(p), now, PassesPrefilter, sim, threshold)
  }

  /**
   * One find-then-add-or-create step on a store: the post is counted into
   * the cluster `find_similar_cluster` returns, or opens a cluster under the
   * next id. Gives the new store and the id of the cluster holding the post.
   */
  ghost function Step(m: map<int, Cluster>, p: Post, now: int, sim: Similarity, threshold: real): (r: (map<int, Cluster>, int))
    requires Dense(m)
    ensures Dense(r.0) && r.1 in r.0 && m.Keys <= r.0.Keys && |m| <= |r.0| <= |m| + 1
  {
    match FindSpec(m, p, now, sim, threshold)
    case Some(k) =>
      assert m[k := Bump(m[k])].Keys == m.Keys;
      (m[k := Bump(m[k])], k)
    case None =>
      DenseInsert(m, NewCluster(p, now));
      (m[|m| + 1 := NewCluster(p, now)], |m| + 1)
  }

  /**
   * The steps for posts[0], posts[1], ... in turn, the i-th at times[i]:
   * the final store and the id each post went to.
   */
  ghost function Run(m: map<int, Cluster>, posts: seq<Post>, times: seq<int>, sim: Similarity, threshold: real)
    : (r: (map<int, Cluster>, seq<int>))
    requires Dense(m) && |times| == |posts|
    ensures Dense(r.0) && m.Keys <= r.0.Keys && |m| <= |r.0| <= |m| + |posts|
    ensures |r.1| == |posts| && forall i :: 0 <= i < |r.1| ==> r.1[i] in r.0
    decreases |posts|
  {
    if posts == [] then (m, [])
    else
      var n := |posts| - 1;
      var prev := Run(m, posts[..n], times[..n], sim, threshold);
      var next := Step(prev.0, posts[n], times[n], sim, threshold);
      (next.0, prev.1 + [next.1])
  }

  /** Running one more post is one more step after the run so far. */
  lemma RunSnoc(m: map<int, Cluster>, posts: seq<Post>, times: seq<int>, sim: Similarity, threshold: real, i: nat)
    requires Dense(m) && |times| == |posts| && i < |posts|
    ensures var prev := Run(m, posts[..i], times[..i], sim, threshold);
      var next := Step(prev.0, posts[i], times[i], sim, threshold);
      Run(m, posts[..i + 1], times[..i + 1], sim, threshold) == (next.0, prev.1 + [next.1])
  {
    assert posts[..i + 1][..i] == posts[..i];
    assert times[..i + 1][..i] == times[..i];
  }

  /** The total of the post counts of ids 1..n. */
  ghost function SumCounts(m: map<int, Cluster>, n: nat): nat {
    if n == 0 then 0 else SumCounts(m, n - 1) + (if n in m then m[n].postCount else 0)
  }

  /** The cluster c with one more post counted into it. */
  function Bump(c: Cluster): Cluster {
    c.(postCount := c.postCount + 1)
  }

  // ---------------------------------------------------------------------
  // The clusterer

  class PostClusterer {
    const similarityThreshold: real
    var activeClusters: map<int, Cluster>

    /** The ids are 1..size and every cluster counts at least its representative post. */
    ghost predicate Valid()
      reads this
    {
      Dense(activeClusters) && forall k :: k in activeClusters ==> activeClusters[k].postCount >= 1
    }

    /** The number of posts counted into all clusters together. */
    ghost function TotalPosts(): nat
      reads this
    {
      SumCounts(activeClusters, |activeClusters|)
    }

    /** `PostClusterer(similarity_threshold)`: an empty store. */
    constructor(threshold: real)
      ensures similarityThreshold == threshold && activeClusters == map[]
      ensures Valid() && TotalPosts() == 0
    {
      similarityThreshold := threshold;
      activeClusters := map[];
    }

    /** `find_similar_cluster(post)`: reads the store and changes nothing. */
    method FindSimilarCluster(post: Post, now: int, sim: Similarity) returns (r: Option<int>)
      requires Valid()
      ensures r == FindSpec(activeClusters, post, now, sim, similarityThreshold)
    {
      if |activeClusters| == 0 {
        return None;
      }
      var processedText := PostText(post);
      var postDomain := PostDomain(post);
      r := ScanClusters(processedText, postDomain, now, PassesPrefilter, sim);
    }

    /**
     * The loop of `find_similar_cluster` over the clusters in id order, for
     * a post with normalised text `processedText` and link domain
     * `postDomain`.
     */
    method ScanClusters(processedText: string, postDomain: string, now: int, passes: Prefilter, sim: Similarity)
      returns (r: Option<int>)
      requires Valid()
      ensures r == FindIn(activeClusters, processedText, postDomain, now, passes, sim, similarityThreshold)
    {
      var m := activeClusters;
      var bestClusterId: Option<int> := None;
      var bestSimilarity: real := 0.0;
      var n := |m|;
      ghost var scores := Scores(m, processedText, now, passes, sim, similarityThreshold);
      for clusterId := 1 to n + 1
        invariant FirstShortcut(m, clusterId - 1, postDomain, now) == None
        invariant bestClusterId == FirstMax(scores, clusterId - 1)
        invariant bestSimilarity == BestScore(scores, clusterId - 1) && bestSimilarity >= 0.0
      {
        var clusterData := m[clusterId];
        assert scores(clusterId) == Score(clusterData, processedText, now, passes, sim, similarityThreshold);
        if IsStale(clusterData, now) {
          FirstMaxSkip(scores, clusterId);
          continue;
        }
        if postDomain != "" && postDomain == clusterData.domain {
          if postDomain !in SocialDomains {
            FirstShortcutStable(m, clusterId, n, postDomain, now);
            return Some(clusterId);
          }
        }
        var clusterText := clusterData.representativeText;
        if !passes(processedText, clusterText) {
          FirstMaxSkip(scores, clusterId);
          continue;
        }
        var similarity := sim(clusterText, processedText);
        FirstMaxStep(scores, clusterId, similarity, similarityThreshold, bestSimilarity);
        if similarity.Some? {
          if similarity.value > bestSimilarity && similarity.value > similarityThreshold {
            bestSimilarity := similarity.value;
            bestClusterId := Some(clusterId);
          }
        }
      }
      return bestClusterId;
    }

    /**
     * `create_cluster(post)`: stores the post's record under the next id
     * and returns that id; no existing cluster is touched.
     */
    method CreateCluster(post: Post, now: int) returns (clusterId: int)
      requires Valid()
      modifies this
      ensures clusterId == old(|activeClusters|) + 1 && clusterId !in old(activeClusters)
      ensures activeClusters == old(activeClusters)[clusterId := NewCluster(post, now)]
      ensures Valid() && TotalPosts() == old(TotalPosts()) + 1
    {
      clusterId := |activeClusters| + 1;
      var processedText := PostText(post);
      var domain := PostDomain(post);
      var record := Cluster(post.id, processedText, domain, now, 1, post.title);
      DenseInsert(activeClusters, record);
      SumCountsInsert(activeClusters, record);
      activeClusters := activeClusters[clusterId := record];
    }

    /** `add_to_cluster(cluster_id, post)`: counts one more post into an existing cluster; an unknown id changes nothing. */
    method AddToCluster(clusterId: int, post: Post)
      requires Valid()
      modifies this
      ensures clusterId in old(activeClusters) ==>
        activeClusters == old(activeClusters)[clusterId := Bump(old(activeClusters)[clusterId])]
      ensures clusterId !in old(activeClusters) ==> activeClusters == old(activeClusters)
      ensures Valid()
      ensures TotalPosts() == old(TotalPosts()) + (if clusterId in old(activeClusters) then 1 else 0)
    {
      if clusterId in activeClusters {
        var m := activeClusters;
        SumCountsBump(m, |m|, clusterId);
        assert (m[clusterId := Bump(m[clusterId])]).Keys == m.Keys;
        activeClusters := m[clusterId := Bump(m[clusterId])];
      }
    }

    /**
     * The find-then-add-or-create step the driver scripts run for each
     * incoming post: the post is counted into the cluster it matches, or opens a new
     * one. Returns the id of the cluster that now holds the post.
     */
    method Process(post: Post, now: int, sim: Similarity) returns (clusterId: int)
      requires Valid()
      modifies this
      ensures Valid() && TotalPosts() == old(TotalPosts()) + 1
      ensures clusterId in activeClusters && old(activeClusters).Keys <= activeClusters.Keys
      ensures old(|activeClusters|) <= |activeClusters| <= old(|activeClusters|) + 1
      ensures match FindSpec(old(activeClusters), post, now, sim, similarityThreshold)
        case Some(k) =>
          clusterId == k && activeClusters == old(activeClusters)[k := Bump(old(activeClusters)[k])]
        case None =>
          clusterId == old(|activeClusters|) + 1 && activeClusters == old(activeClusters)[clusterId := NewCluster(post, now)]
      ensures activeClusters == Step(old(activeClusters), post, now, sim, similarityThreshold).0
      ensures clusterId == Step(old(activeClusters), post, now, sim, similarityThreshold).1
    {
      var found := FindSimilarCluster(post, now, sim);
      if found.Some? {
        AddToCluster(found.value, post);
        clusterId := found.value;
      } else {
        clusterId := CreateCluster(post, now);
      }
    }

    /** Runs `Process` on each post in turn, the i-th post at time times[i]. */
    method ProcessAll(posts: seq<Post>, times: seq<int>, sim: Similarity) returns (ids: seq<int>)
      requires Valid() && |times| == |posts|
      modifies this
      ensures Valid()
      ensures TotalPosts() == old(TotalPosts()) + |posts|
      ensures |ids| == |posts| && forall i :: 0 <= i < |ids| ==> ids[i] in activeClusters
      ensures old(|activeClusters|) <= |activeClusters| <= old(|activeClusters|) + |posts|
      ensures activeClusters == Run(old(activeClusters), posts, times, sim, similarityThreshold).0
      ensures ids == Run(old(activeClusters), posts, times, sim, similarityThreshold).1
    {
      ghost var m0 := activeClusters;
      ids := [];
      for i := 0 to |posts|
        invariant Valid()
        invariant TotalPosts() == old(TotalPosts()) + i
        invariant activeClusters == Run(m0, posts[..i], times[..i], sim, similarityThreshold).0
        invariant ids == Run(m0, posts[..i], times[..i], sim, similarityThreshold).1
      {
        RunSnoc(m0, posts, times, sim, similarityThreshold, i);
        var id := Process(posts[i], times[i], sim);
        ids := ids + [id];
      }
      assert posts[..|posts|] == posts && times[..|times|] == times;
    }
  }

  // ---------------------------------------------------------------------
  // The store stays dense, and post counts add up

  /** Storing under size + 1 keeps the ids 1..size. */
  lemma DenseInsert(m: map<int, Cluster>, c: Cluster)
    requires Dense(m)
    ensures |m| + 1 !in m
    ensures |m[|m| + 1 := c]| == |m| + 1
    ensures Dense(m[|m| + 1 := c])
  {
  }

  /** Post counts of ids 1..n depend only on the clusters stored under those ids. */
  lemma {:induction false} SumCountsFrame(m1: map<int, Cluster>, m2: map<int, Cluster>, n: nat)
    requires forall k :: 1 <= k <= n ==> (k in m1 <==> k in m2)
    requires forall k :: 1 <= k <= n && k in m1 ==> m1[k].postCount == m2[k].postCount
    ensures SumCounts(m1, n) == SumCounts(m2, n)
  {
    if n > 0 {
      SumCountsFrame(m1, m2, n - 1);
    }
  }

  /** Storing a new cluster under size + 1 adds its post count to the total. */
  lemma SumCountsInsert(m: map<int, Cluster>, c: Cluster)
    requires Dense(m)
    ensures SumCounts(m[|m| + 1 := c], |m| + 1) == SumCounts(m, |m|) + c.postCount
  {
    var m' := m[|m| + 1 := c];
    SumCountsFrame(m, m', |m|);
  }

  /** Counting one more post into cluster k adds one to the total. */
  lemma {:induction false} SumCountsBump(m: map<int, Cluster>, n: nat, k: int)
    requires k in m && 1 <= k <= n
    ensures SumCounts(m[k := Bump(m[k])], n) == SumCounts(m, n) + 1
  {
    var m' := m[k := Bump(m[k])];
    if n == k {
      SumCountsFrame(m, m', n - 1);
    } else {
      SumCountsBump(m, n - 1, k);
    }
  }

  /** Every cluster counts at least one post, so there are at least as many posts as clusters. */
  lemma {:induction false} SumCountsAtLeast(m: map<int, Cluster>, n: nat)
    requires HasIds(m, n)
    requires forall k :: k in m ==> m[k].postCount >= 1
    ensures SumCounts(m, n) >= n
  {
    if n > 0 {
      SumCountsAtLeast(m, n - 1);
    }
  }

  /** In a valid store there are at least as many posts counted as there are clusters. */
  lemma PostsAtLeastClusters(c: PostClusterer)
    requires c.Valid()
    ensures c.TotalPosts() >= |c.activeClusters|
  {
    SumCountsAtLeast(c.activeClusters, |c.activeClusters|);
  }

  // ---------------------------------------------------------------------
  // The domain shortcut

  /** Once some id up to j takes the shortcut, the first one found up to any n >= j stays the same. */
  lemma {:induction false} FirstShortcutStable(m: map<int, Cluster>, j: nat, n: nat, d: string, now: int)
    requires HasIds(m, n) && 1 <= j <= n
    requires ShortcutHit(m[j], d, now)
    ensures FirstShortcut(m, n, d, now) == FirstShortcut(m, j, d, now)
    ensures FirstShortcut(m, n, d, now).Some?
  {
  }

  /**
   * When some live cluster has the post's non-empty, non-social domain, the
   * result is the first such cluster in id order, whatever the texts, the
   * similarities and the threshold.
   */
  lemma FindTakesFirstShortcut(m: map<int, Cluster>, p: Post, now: int, sim: Similarity, threshold: real, k: int)
    requires Dense(m) && k in m && ShortcutHit(m[k], PostDomain(p), now)
    ensures var r := FindSpec(m, p, now, sim, threshold);
      && r.Some? && r.value <= k
      && ShortcutHit(m[r.value], PostDomain(p), now)
      && (forall j :: 1 <= j < r.value ==> !ShortcutHit(m[j], PostDomain(p), now))
      && r == FirstShortcut(m, |m|, PostDomain(p), now)
  {
    var f := FirstShortcut(m, |m|, PostDomain(p), now);
    assert f.Some?;
  }

  /**
   * A post whose link has the same non-empty, non-social domain as the post
   * that opened the newest cluster, arriving within 24 hours of it, is
   * matched to a cluster of that domain: exactly the newest one when no
   * older cluster takes the shortcut for that domain at that time, and
   * otherwise the first such older one.
   */
  lemma SameDomainJoins(m: map<int, Cluster>, p1: Post, t1: int, p2: Post, t2: int, sim: Similarity, threshold: real)
    requires Dense(m)
    requires PostDomain(p1) == PostDomain(p2) != "" && PostDomain(p1) !in SocialDomains
    requires t2 - t1 <= StaleWindow
    ensures var m' := m[|m| + 1 := NewCluster(p1, t1)];
      Dense(m') &&
      var r := FindSpec(m', p2, t2, sim, threshold);
      && r.Some? && r.value <= |m| + 1 && m'[r.value].domain == PostDomain(p2)
      && ((forall k :: k in m ==> !ShortcutHit(m[k], PostDomain(p2), t2)) ==> r == Some(|m| + 1))
  {
    var m' := m[|m| + 1 := NewCluster(p1, t1)];
    DenseInsert(m, NewCluster(p1, t1));
    FindTakesFirstShortcut(m', p2, t2, sim, threshold, |m| + 1);
    var r := FindSpec(m', p2, t2, sim, threshold);
    if forall k :: k in m ==> !ShortcutHit(m[k], PostDomain(p2), t2) {
      assert r.value <= |m| ==> m'[r.value] == m[r.value];
    }
  }

  /**
   * The driver's form of the same-domain rule: when the first post found no
   * cluster at t1 and so opened one, a later post with the same non-empty,
   * non-social domain within 24 hours joins exactly that cluster, whatever
   * the similarities and thresholds of either lookup.
   */
  lemma OpenedClusterJoins(m: map<int, Cluster>, p1: Post, t1: int, p2: Post, t2: int,
                           sim1: Similarity, threshold1: real, sim2: Similarity, threshold2: real)
    requires Dense(m) && FindSpec(m, p1, t1, sim1, threshold1).None?
    requires PostDomain(p1) == PostDomain(p2) != "" && PostDomain(p1) !in SocialDomains
    requires t1 <= t2 <= t1 + StaleWindow
    ensures var m' := m[|m| + 1 := NewCluster(p1, t1)];
      Dense(m') && FindSpec(m', p2, t2, sim2, threshold2) == Some(|m| + 1)
  {
    FindNone(m, p1, t1, sim1, threshold1);
    forall k | k in m
      ensures !ShortcutHit(m[k], PostDomain(p2), t2)
    {
      if IsStale(m[k], t1) {
        StaleStays(m[k], t1, t2);
      }
    }
    SameDomainJoins(m, p1, t1, p2, t2, sim2, threshold2);
  }

  /**
   * The third form of the same-domain rule: when the first post joined
   * cluster k through the domain shortcut, a later post with the same domain
   * joins k too, for as long as k stays live, whatever the similarities and
   * thresholds. No cluster before k can start taking the shortcut, since a
   * stale cluster stays stale.
   */
  lemma {:induction false} ShortcutClusterKeeps(m: map<int, Cluster>, p1: Post, t1: int, p2: Post, t2: int,
                                                sim1: Similarity, threshold1: real, sim2: Similarity, threshold2: real, k: int)
    requires Dense(m) && k in m && ShortcutHit(m[k], PostDomain(p1), t1)
    requires FindSpec(m, p1, t1, sim1, threshold1) == Some(k)
    requires PostDomain(p2) == PostDomain(p1) && t1 <= t2 && !IsStale(m[k], t2)
    ensures var m' := m[k := Bump(m[k])];
      Dense(m') && FindSpec(m', p2, t2, sim2, threshold2) == Some(k)
  {
    FindTakesFirstShortcut(m, p1, t1, sim1, threshold1, k);
    FirstShortcutKeeps(m, PostDomain(p1), t1, t2, k);
    var m' := m[k := Bump(m[k])];
    FindTakesFirstShortcut(m', p2, t2, sim2, threshold2, k);
  }

  /** A bump keeps the first shortcut cluster first, for as long as it stays live. */
  lemma FirstShortcutKeeps(m: map<int, Cluster>, d: string, t1: int, t2: int, k: int)
    requires Dense(m) && k in m && t1 <= t2 && !IsStale(m[k], t2)
    requires FirstShortcut(m, |m|, d, t1) == Some(k)
    ensures var m' := m[k := Bump(m[k])];
      Dense(m') && k in m' && ShortcutHit(m'[k], d, t2) && FirstShortcut(m', |m'|, d, t2) == Some(k)
  {
    var m' := m[k := Bump(m[k])];
    assert m'.Keys == m.Keys;
    forall j | 1 <= j < k
      ensures !ShortcutHit(m'[j], d, t2)
    {
      assert m'[j] == m[j];
      if IsStale(m[j], t1) {
        StaleStays(m[j], t1, t2);
      }
    }
  }

  /**
   * The situation of the duplicate-link test, for the example link
   * https://news.example.com/story (the test's own links are not shown): once the first post has opened a cluster,
   * the second post with the same link joins a cluster of that link's
   * domain, and exactly the new one when no older cluster takes the
   * shortcut for that domain.
   */
  lemma DuplicateLinkJoins(m: map<int, Cluster>, p1: Post, t1: int, p2: Post, t2: int, sim: Similarity, threshold: real)
    requires Dense(m)
    requires p1.url == p2.url == Some("https://news.example.com/story")
    requires t2 - t1 <= StaleWindow
    ensures var m' := m[|m| + 1 := NewCluster(p1, t1)];
      Dense(m') &&
      var r := FindSpec(m', p2, t2, sim, threshold);
      && r.Some? && m'[r.value].domain == "news.example.com"
      && ((forall k :: k in m ==> !ShortcutHit(m[k], "news.example.com", t2)) ==> r == Some(|m| + 1))
  {
    NewsLinkDomain(p1);
    NewsLinkDomain(p2);
    SameDomainJoins(m, p1, t1, p2, t2, sim, threshold);
  }

  /** The sample link's domain is not a social one. */
  lemma NewsLinkDomain(p: Post)
    requires p.url == Some("https://news.example.com/story")
    ensures PostDomain(p) == "news.example.com" && PostDomain(p) !in SocialDomains
  {
    ExtractDomainNewsExample();
  }

  // ---------------------------------------------------------------------
  // The text path

  /**
   * The running best is the first of 1..n with the highest score; there is
   * none exactly when no id has a score.
   */
  lemma {:induction false} FirstMaxCharacterized(f: int -> Option<real>, n: nat)
    ensures var b := FirstMax(f, n);
      && (b.None? <==> forall k :: 1 <= k <= n ==> f(k).None?)
      && (b.Some? ==> forall k :: 1 <= k <= n && f(k).Some? ==> f(k).value <= f(b.value).value)
      && (b.Some? ==> forall k :: 1 <= k < b.value && f(k).Some? ==> f(k).value < f(b.value).value)
  {
    if n > 0 {
      FirstMaxCharacterized(f, n - 1);
    }
  }

  /** An id without a score leaves the running best as it was. */
  lemma FirstMaxSkip(f: int -> Option<real>, n: nat)
    requires n >= 1 && f(n).None?
    ensures FirstMax(f, n) == FirstMax(f, n - 1) && BestScore(f, n) == BestScore(f, n - 1)
  {
  }

  /**
   * The running best after id n, whose score is its similarity s when that
   * is above the threshold t and above 0, given the running best score
   * `best` before it.
   */
  lemma FirstMaxStep(f: int -> Option<real>, n: nat, s: Option<real>, t: real, best: real)
    requires n >= 1 && best == BestScore(f, n - 1) && best >= 0.0
    requires f(n) == if s.Some? && s.value > t && s.value > 0.0 then s else None
    ensures var takes := s.Some? && s.value > best && s.value > t;
      && FirstMax(f, n) == (if takes then Some(n) else FirstMax(f, n - 1))
      && BestScore(f, n) == (if takes then s.value else best)
  {
  }

  /**
   * Dropping every score not above t leaves the running best in place, or
   * leaves none at all.
   */
  lemma FirstMaxFiltered(f: int -> Option<real>, g: int -> Option<real>, t: real, n: nat)
    requires forall k :: g(k) == (if f(k).Some? && f(k).value > t then f(k) else None)
    ensures FirstMax(g, n) == FirstMax(f, n) || FirstMax(g, n).None?
  {
    FirstMaxCharacterized(f, n);
    FirstMaxCharacterized(g, n);
    var bf, bg := FirstMax(f, n), FirstMax(g, n);
    if bg.Some? {
      var k, j := bg.value, bf.value;
      assert f(k) == g(k);
      assert f(j).value >= g(k).value;
      assert g(j) == f(j);
      assert f(j).value == g(k).value;
      assert !(j < k);
      assert !(k < j);
    }
  }

  /**
   * A cluster returned other than by the domain shortcut is live, passed
   * the keyword pre-filter, has a similarity (no exception) above both the
   * threshold and 0, has the highest similarity among all clusters that
   * compete, and every earlier competitor is strictly lower.
   */
  lemma FindByText(m: map<int, Cluster>, p: Post, now: int, sim: Similarity, threshold: real, k: int)
    requires Dense(m)
    requires FindSpec(m, p, now, sim, threshold) == Some(k)
    requires !ShortcutHit(m[k], PostDomain(p), now)
    ensures !IsStale(m[k], now)
    ensures !BelowPrefilter(KeywordOverlap(PostText(p), m[k].representativeText))
    ensures sim(m[k].representativeText, PostText(p)).Some?
    ensures var s := sim(m[k].representativeText, PostText(p)).value;
      && s > threshold && s > 0.0
      && (forall j :: j in m && Score(m[j], PostText(p), now, PassesPrefilter, sim, threshold).Some? ==>
            Score(m[j], PostText(p), now, PassesPrefilter, sim, threshold).value <= s)
      && (forall j :: 1 <= j < k && Score(m[j], PostText(p), now, PassesPrefilter, sim, threshold).Some? ==>
            Score(m[j], PostText(p), now, PassesPrefilter, sim, threshold).value < s)
  {
    assert FirstShortcut(m, |m|, PostDomain(p), now).None?;
    assert FirstMax(Scores(m, PostText(p), now, PassesPrefilter, sim, threshold), |m|) == Some(k);
    BestOfScores(m, PostText(p), now, sim, threshold, k);
  }

  /** The running best over the store's scores is a cluster with the highest score, strictly above every earlier one. */
  lemma BestOfScores(m: map<int, Cluster>, text: string, now: int, sim: Similarity, threshold: real, k: int)
    requires Dense(m)
    requires FirstMax(Scores(m, text, now, PassesPrefilter, sim, threshold), |m|) == Some(k)
    ensures k in m && Score(m[k], text, now, PassesPrefilter, sim, threshold).Some?
    ensures var s := Score(m[k], text, now, PassesPrefilter, sim, threshold).value;
      && (forall j :: j in m && Score(m[j], text, now, PassesPrefilter, sim, threshold).Some? ==>
            Score(m[j], text, now, PassesPrefilter, sim, threshold).value <= s)
      && (forall j :: 1 <= j < k && Score(m[j], text, now, PassesPrefilter, sim, threshold).Some? ==>
            Score(m[j], text, now, PassesPrefilter, sim, threshold).value < s)
  {
    var f := Scores(m, text, now, PassesPrefilter, sim, threshold);
    FirstMaxCharacterized(f, |m|);
    assert f(k) == Score(m[k], text, now, PassesPrefilter, sim, threshold);
    forall j | j in m
      ensures f(j) == Score(m[j], text, now, PassesPrefilter, sim, threshold)
    {
    }
  }

  /**
   * A cluster whose keyword overlap with the post is below 0.3, or whose
   * similarity raises, is only ever returned by the domain shortcut.
   */
  lemma RejectedNotChosen(m: map<int, Cluster>, p: Post, now: int, sim: Similarity, threshold: real, k: int)
    requires Dense(m) && k in m
    requires BelowPrefilter(KeywordOverlap(PostText(p), m[k].representativeText))
      || sim(m[k].representativeText, PostText(p)).None?
    ensures FindSpec(m, p, now, sim, threshold) == Some(k) ==> ShortcutHit(m[k], PostDomain(p), now)
  {
    if FindSpec(m, p, now, sim, threshold) == Some(k) && !ShortcutHit(m[k], PostDomain(p), now) {
      FindByText(m, p, now, sim, threshold, k);
    }
  }

  /**
   * No cluster is found exactly when the store is empty, or when no live
   * cluster takes the shortcut and no cluster competes on the text path.
   */
  lemma FindNone(m: map<int, Cluster>, p: Post, now: int, sim: Similarity, threshold: real)
    requires Dense(m)
    ensures FindSpec(m, p, now, sim, threshold).None? <==>
      (forall k :: k in m ==>
        !ShortcutHit(m[k], PostDomain(p), now) && Score(m[k], PostText(p), now, PassesPrefilter, sim, threshold).None?)
  {
    var f := Scores(m, PostText(p), now, PassesPrefilter, sim, threshold);
    FirstMaxCharacterized(f, |m|);
    forall j | j in m
      ensures f(j) == Score(m[j], PostText(p), now, PassesPrefilter, sim, threshold)
    {
    }
  }

  /** A score above a lower threshold is the same score, and a score above a higher one is one above the lower. */
  lemma ScoreThreshold(c: Cluster, text: string, now: int, passes: Prefilter, sim: Similarity, t1: real, t2: real)
    requires t1 <= t2
    ensures Score(c, text, now, passes, sim, t2).Some? ==> Score(c, text, now, passes, sim, t1) == Score(c, text, now, passes, sim, t2)
    ensures Score(c, text, now, passes, sim, t1).Some? && Score(c, text, now, passes, sim, t1).value > t2 ==>
      Score(c, text, now, passes, sim, t2) == Score(c, text, now, passes, sim, t1)
  {
  }

  /** For fixed similarities, raising the threshold keeps the same result or finds nothing. */
  lemma ThresholdMonotone(m: map<int, Cluster>, p: Post, now: int, sim: Similarity, t1: real, t2: real)
    requires Dense(m) && t1 <= t2
    ensures var r2 := FindSpec(m, p, now, sim, t2);
      r2 == FindSpec(m, p, now, sim, t1) || r2.None?
  {
    var f1 := Scores(m, PostText(p), now, PassesPrefilter, sim, t1);
    var f2 := Scores(m, PostText(p), now, PassesPrefilter, sim, t2);
    forall k
      ensures f2(k) == (if f1(k).Some? && f1(k).value > t2 then f1(k) else None)
    {
      if k in m {
        ScoreThreshold(m[k], PostText(p), now, PassesPrefilter, sim, t1, t2);
      }
    }
    FirstMaxFiltered(f1, f2, t2, |m|);
  }

  // ---------------------------------------------------------------------
  // Staleness

  /** A cluster 24 hours old is still live; one microsecond more and it is stale. */
  lemma StaleBoundary(c: Cluster)
    ensures !IsStale(c, c.createdAt + StaleWindow)
    ensures IsStale(c, c.createdAt + StaleWindow + 1)
  {
  }

  /** A newly created cluster can take a post that arrives within 24 hours of its creation. */
  lemma NewClusterLive(p: Post, t1: int, t2: int)
    requires t2 - t1 <= StaleWindow
    ensures !IsStale(NewCluster(p, t1), t2)
  {
  }

  /** Once stale, a cluster stays stale. */
  lemma StaleStays(c: Cluster, t1: int, t2: int)
    requires t1 <= t2 && IsStale(c, t1)
    ensures IsStale(c, t2)
  {
  }
}
