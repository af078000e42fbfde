/** `processRepositoryData` and `generateGitHubData`: the listed repositories are filtered,
    normalised, flagged as pinned, ranked and wrapped in the published document. */
module RepoProcessor {
  import opened Wrappers
  import opened Text
  import opened Seqs
  import opened GitHubData

  const NoDescription := "No description available"

  /** At most this many topics of a repository are kept. */
  const MaxTopics: nat := 5

  /** Only repositories that are neither forks nor private are published. */
  predicate IsPublished(r: RawRepo) {
    !r.fork && !r.private
  }

  /** The lower-cased names of the pinned entries. */
  function PinnedNames(pinned: seq<PinnedEntry>): (names: set<string>)
    ensures forall n :: n in names <==> exists p :: p in pinned && Lower(p.name) == n
  {
    set p | p in pinned :: Lower(p.name)
  }

  /** The published form of one listed repository. */
  function Normalize(r: RawRepo, names: set<string>): (p: Repository)
    ensures p.name == r.name && p.htmlUrl == r.htmlUrl && p.language == r.language
    ensures p.stargazersCount == r.stargazersCount && p.updatedAt == r.updatedAt
    ensures Truthy(r.description) ==> p.description == r.description.value
    ensures !Truthy(r.description) ==> p.description == NoDescription
    ensures p.homepage.Some? <==> Truthy(r.homepage)
    ensures p.homepage.Some? ==> p.homepage == r.homepage
    ensures |p.topics| <= MaxTopics
    ensures r.topics.None? ==> p.topics == []
    ensures r.topics.Some? ==>
              |p.topics| == (if |r.topics.value| < MaxTopics then |r.topics.value| else MaxTopics) &&
              p.topics == r.topics.value[..|p.topics|]
    ensures p.isPinned <==> Lower(r.name) in names
  {
    Repository(
      r.name,
      if Truthy(r.description) then r.description.value else NoDescription,
      r.htmlUrl,
      if Truthy(r.homepage) then r.homepage else None,
      r.language,
      r.stargazersCount,
      var topics := r.topics.GetOr([]); topics[..if |topics| < MaxTopics then |topics| else MaxTopics],
      r.updatedAt,
      Lower(r.name) in names)
  }

  /** Field normalisation: the description falls back to a placeholder only when it is missing
      or empty, the homepage becomes null only then, the topics are the first at most five raw
      topics in order, the pinned flag is a case-insensitive name match against the pinned
      entries, and every other field is copied. */
  lemma NormalizeFields(r: RawRepo, pinned: seq<PinnedEntry>)
    ensures var p := Normalize(r, PinnedNames(pinned));
      && p.name == r.name && p.htmlUrl == r.htmlUrl && p.language == r.language
      && p.stargazersCount == r.stargazersCount && p.updatedAt == r.updatedAt
      && (r.description.Some? && r.description.value != "" ==> p.description == r.description.value)
      && (r.description.None? || r.description.value == "" ==> p.description == NoDescription)
      && (p.homepage.Some? <==> r.homepage.Some? && r.homepage.value != "")
      && (p.homepage.Some? ==> p.homepage == r.homepage)
      && (r.topics.None? ==> p.topics == [])
      && (r.topics.Some? ==> |p.topics| <= MaxTopics && p.topics == r.topics.value[..|p.topics|]
                             && (|p.topics| < MaxTopics ==> p.topics == r.topics.value))
      && (p.isPinned <==> exists q :: q in pinned && Lower(q.name) == Lower(r.name))
  {
  }

  function NormalizeAll(repos: seq<RawRepo>, names: set<string>): (r: seq<Repository>)
    ensures |r| == |repos|
    ensures forall i :: 0 <= i < |repos| ==> r[i] == Normalize(repos[i], names)
  {
    if repos == [] then [] else [Normalize(repos[0], names)] + NormalizeAll(repos[1..], names)
  }

  /** The sort comparator, with JavaScript's sign convention: negative puts `a` first, positive
      puts `b` first, zero keeps their order. Timestamps are compared as numbers. */
  function Compare(a: Repository, b: Repository): (c: int)
    ensures a.isPinned != b.isPinned ==> c != 0 && (c < 0 <==> a.isPinned)
    ensures a.isPinned == b.isPinned && a.stargazersCount != b.stargazersCount ==>
              c != 0 && (c < 0 <==> a.stargazersCount > b.stargazersCount)
    ensures a.isPinned == b.isPinned && a.stargazersCount == b.stargazersCount ==>
              (c < 0 <==> a.updatedAt > b.updatedAt) && (c == 0 <==> a.updatedAt == b.updatedAt)
  {
    if a.isPinned && !b.isPinned then -1
    else if !a.isPinned && b.isPinned then 1
    else if b.stargazersCount != a.stargazersCount then b.stargazersCount - a.stargazersCount
    else b.updatedAt - a.updatedAt
  }

  /** The ranking, tier by tier: pinned before unpinned; then more stars first; then the more
      recently updated first. `a` may stand before `b`. */
  predicate InOrder(a: Repository, b: Repository) {
    || (a.isPinned && !b.isPinned)
    || (a.isPinned == b.isPinned &&
        (a.stargazersCount > b.stargazersCount ||
         (a.stargazersCount == b.stargazersCount && a.updatedAt >= b.updatedAt)))
  }

  /** What the comparator does not distinguish. */
  datatype SortKey = SortKey(isPinned: bool, stargazersCount: int, updatedAt: int)

  function Key(r: Repository): SortKey {
    SortKey(r.isPinned, r.stargazersCount, r.updatedAt)
  }

  /** The comparator agrees with the ranking, is antisymmetric (so `Array.prototype.sort`
      is given a consistent comparator), and ties exactly the repositories with equal keys. */
  lemma CompareIsRanking(a: Repository, b: Repository)
    ensures Compare(a, b) <= 0 <==> InOrder(a, b)
    ensures Compare(a, b) == 0 <==> Key(a) == Key(b)
    ensures Compare(a, b) == -Compare(b, a)
  {
  }

  /** Every adjacent pair is in ranking order. */
  predicate Sorted(s: seq<Repository>) {
    forall i, j :: 0 <= i < |s| && 0 <= j < |s| && j == i + 1 ==> InOrder(s[i], s[j])
  }

  /** Insert `x` in front of the first element that the comparator does not put before it. */
  function Insert(x: Repository, s: seq<Repository>): (r: seq<Repository>)
    ensures |r| == |s| + 1
    ensures r[0] == x || (s != [] && r[0] == s[0])
    ensures multiset(r) == multiset(s) + multiset{x}
  {
    if s == [] then [x]
    else if Compare(s[0], x) < 0 then
      assert s == [s[0]] + s[1..];
      [s[0]] + Insert(x, s[1..])
    else
      [x] + s
  }

  /** Inserting into a ranked list keeps it ranked. */
  lemma {:induction false} InsertSorted(x: Repository, s: seq<Repository>)
    requires Sorted(s)
    ensures Sorted(Insert(x, s))
  {
    if s != [] && Compare(s[0], x) < 0 {
      var rest := Insert(x, s[1..]);
      assert Sorted(s[1..]) by {
        forall i, j | 0 <= i < |s[1..]| && 0 <= j < |s[1..]| && j == i + 1
          ensures InOrder(s[1..][i], s[1..][j])
        {
          assert InOrder(s[i + 1], s[j + 1]);
        }
      }
      InsertSorted(x, s[1..]);
      assert InOrder(s[0], x);
      assert |s| > 1 ==> InOrder(s[0], s[1]);
      var r := [s[0]] + rest;
      forall i, j | 0 <= i < |r| && 0 <= j < |r| && j == i + 1
        ensures InOrder(r[i], r[j])
      {
        if i > 0 {
          assert r[i] == rest[i - 1] && r[j] == rest[j - 1];
        }
      }
    } else if s != [] {
      var r := [x] + s;
      assert InOrder(x, s[0]);
      forall i, j | 0 <= i < |r| && 0 <= j < |r| && j == i + 1
        ensures InOrder(r[i], r[j])
      {
        if i > 0 {
          assert r[i] == s[i - 1] && r[j] == s[j - 1];
        }
      }
    }
  }

  /** The stable sort `Array.prototype.sort` performs with `Compare`: a sorted permutation. */
  function Sort(s: seq<Repository>): (r: seq<Repository>)
    ensures Sorted(r)
    ensures multiset(r) == multiset(s)
  {
    if s == [] then []
    else
      assert s == [s[0]] + s[1..];
      InsertSorted(s[0], Sort(s[1..]));
      Insert(s[0], Sort(s[1..]))
  }

  /** The ranking is transitive, so a sorted list is in order for every pair, not only for
      adjacent ones. */
  lemma {:induction false} SortedAllPairs(s: seq<Repository>)
    requires Sorted(s)
    ensures forall i, j :: 0 <= i < j < |s| ==> InOrder(s[i], s[j])
  {
    if |s| > 1 {
      SortedAllPairs(s[1..]);
      forall j | 1 < j < |s| ensures InOrder(s[0], s[j]) {
        assert InOrder(s[1..][0], s[1..][j - 1]);
      }
    }
  }

  function HasKey(k: SortKey): Repository -> bool {
    r => Key(r) == k
  }

  /** Two repositories the comparator orders strictly never share a key, so at most one of
      them survives filtering by a key. */
  lemma OrderedApart(a: Repository, b: Repository, k: SortKey)
    requires Compare(a, b) < 0
    ensures Filter([a], HasKey(k)) == [] || Filter([b], HasKey(k)) == []
  {
    assert Key(a) != Key(b);
    FilterSingle(a, HasKey(k));
    FilterSingle(b, HasKey(k));
  }

  /** Inserting `x` places it before every element with its own key. */
  lemma {:induction false} InsertStable(x: Repository, s: seq<Repository>, k: SortKey)
    ensures Filter(Insert(x, s), HasKey(k)) == Filter([x], HasKey(k)) + Filter(s, HasKey(k))
  {
    var kp := HasKey(k);
    if s == [] || Compare(s[0], x) >= 0 {
      FilterAppend([x], s, kp);
    } else {
      var head, tail := s[0], s[1..];
      var rest := Insert(x, tail);
      assert Insert(x, s) == [head] + rest;
      assert s == [head] + tail;
      InsertStable(x, tail, k);
      OrderedApart(head, x, k);
      FilterAppend([head], rest, kp);
      FilterAppend([head], tail, kp);
    }
  }

  /** The sort is stable: repositories the comparator ties keep their original relative order. */
  lemma {:induction false} SortStable(s: seq<Repository>, k: SortKey)
    ensures Filter(Sort(s), HasKey(k)) == Filter(s, HasKey(k))
  {
    if s != [] {
      SortStable(s[1..], k);
      InsertStable(s[0], Sort(s[1..]), k);
      assert s == [s[0]] + s[1..];
      FilterAppend([s[0]], s[1..], HasKey(k));
    }
  }

  predicate Pinned(r: Repository) { r.isPinned }
  predicate Unpinned(r: Repository) { !r.isPinned }

  /** What `processRepositoryData` returns. */
  datatype Processed = Processed(processedRepos: seq<Repository>, featuredRepos: seq<Repository>)

  /** `processRepositoryData`: the published repositories, normalised and flagged, in ranking
      order, and the pinned ones among them. */
  function ProcessRepositoryData(repos: seq<RawRepo>, pinned: seq<PinnedEntry>): (res: Processed)
    ensures Sorted(res.processedRepos)
    ensures multiset(res.processedRepos) == multiset(NormalizeAll(Filter(repos, IsPublished), PinnedNames(pinned)))
    ensures res.featuredRepos == Filter(res.processedRepos, Pinned)
  {
    var names := PinnedNames(pinned);
    var processedRepos := Sort(NormalizeAll(Filter(repos, IsPublished), names));
    Processed(processedRepos, Filter(processedRepos, Pinned))
  }

  /** The normalised list holds the normalised form of each listed repository and nothing else. */
  lemma NormalizeAllMembers(repos: seq<RawRepo>, names: set<string>)
    ensures forall x :: x in NormalizeAll(repos, names) <==> exists r :: r in repos && x == Normalize(r, names)
  {
    var out := NormalizeAll(repos, names);
    forall x | x in out ensures exists r :: r in repos && x == Normalize(r, names) {
      var i :| 0 <= i < |out| && out[i] == x;
      assert repos[i] in repos;
    }
    forall r | r in repos ensures Normalize(r, names) in out {
      var i :| 0 <= i < |repos| && repos[i] == r;
      assert out[i] == Normalize(r, names);
    }
  }

  /** Exactly the published repositories come out, each as often as it was listed: every entry
      is the normalised form of a listed repository that is neither a fork nor private, and
      every such repository is there. */
  lemma ProcessedArePublished(repos: seq<RawRepo>, pinned: seq<PinnedEntry>)
    ensures var out := ProcessRepositoryData(repos, pinned).processedRepos;
      && |out| == |Filter(repos, IsPublished)|
      && (forall x :: x in out ==> exists r :: r in repos && IsPublished(r) && x == Normalize(r, PinnedNames(pinned)))
      && (forall r :: r in repos && IsPublished(r) ==> Normalize(r, PinnedNames(pinned)) in out)
  {
    var names := PinnedNames(pinned);
    var published := Filter(repos, IsPublished);
    var mapped := NormalizeAll(published, names);
    var out := ProcessRepositoryData(repos, pinned).processedRepos;
    SameElements(out, mapped);
    NormalizeAllMembers(published, names);
    FilterMembers(repos, IsPublished);
    forall x | x in out ensures exists r :: r in repos && IsPublished(r) && x == Normalize(r, names) {
      assert x in mapped;
      var r :| r in published && x == Normalize(r, names);
      assert r in repos && IsPublished(r);
    }
    forall r | r in repos && IsPublished(r) ensures Normalize(r, names) in out {
      assert r in published;
      assert Normalize(r, names) in mapped;
    }
  }

  /** Every published repository carries at most five topics and a pinned flag that is true
      exactly when its name matches a pinned entry's name ignoring case. */
  lemma ProcessedFields(repos: seq<RawRepo>, pinned: seq<PinnedEntry>)
    ensures forall x :: x in ProcessRepositoryData(repos, pinned).processedRepos ==>
      && |x.topics| <= MaxTopics
      && (x.isPinned <==> exists q :: q in pinned && Lower(q.name) == Lower(x.name))
  {
    var names := PinnedNames(pinned);
    ProcessedArePublished(repos, pinned);
    forall x | x in ProcessRepositoryData(repos, pinned).processedRepos
      ensures |x.topics| <= MaxTopics
      ensures x.isPinned <==> exists q :: q in pinned && Lower(q.name) == Lower(x.name)
    {
      var r :| r in repos && IsPublished(r) && x == Normalize(r, names);
      NormalizeFields(r, pinned);
    }
  }

  /** When the scrape degraded to no pinned entries, nothing is flagged as pinned and nothing
      is featured. */
  lemma NothingPinnedWithoutEntries(repos: seq<RawRepo>)
    ensures var res := ProcessRepositoryData(repos, []);
      (forall x :: x in res.processedRepos ==> !x.isPinned) && res.featuredRepos == []
  {
    ProcessedFields(repos, []);
    var res := ProcessRepositoryData(repos, []);
    FilterNone(res.processedRepos, Pinned);
  }

  /** The featured list is itself in ranking order: a pinned subsequence of a ranked list. */
  lemma {:induction false} FilterKeepsSorted(s: seq<Repository>, keep: Repository -> bool)
    requires Sorted(s)
    ensures Sorted(Filter(s, keep))
  {
    if s != [] {
      FilterKeepsSorted(s[1..], keep);
      var rest := Filter(s[1..], keep);
      if keep(s[0]) && rest != [] {
        SortedAllPairs(s);
        FilterMembers(s[1..], keep);
        assert rest[0] in s[1..];
        var j :| 0 <= j < |s[1..]| && s[1..][j] == rest[0];
        assert InOrder(s[0], s[j + 1]);
        var r := [s[0]] + rest;
        forall i, j | 0 <= i < |r| && 0 <= j < |r| && j == i + 1 ensures InOrder(r[i], r[j]) {
          if i > 0 { assert r[i] == rest[i - 1] && r[j] == rest[j - 1]; }
        }
      }
    }
  }

  /** The featured repositories are ranked like the whole list. */
  lemma FeaturedSorted(repos: seq<RawRepo>, pinned: seq<PinnedEntry>)
    ensures Sorted(ProcessRepositoryData(repos, pinned).featuredRepos)
  {
    FilterKeepsSorted(ProcessRepositoryData(repos, pinned).processedRepos, Pinned);
  }

  /** `generateGitHubData`: the document holds the processed list unchanged; the profile and
      the featured list do not contribute to it. */
  function GenerateGitHubData<U>(user: U, repos: seq<Repository>, featuredRepos: seq<Repository>): (doc: Document)
    ensures doc.repositories == repos
  {
    Document(repos)
  }

  /** The worked example: A (10 stars, updated 2024-01-01) and B (50 stars, updated 2023-01-01),
      with B pinned. */
  const ExampleA := RawRepo("A", None, "https://github.com/u/A", None, None, 10, None, 1704067200, false, false)
  const ExampleB := RawRepo("B", None, "https://github.com/u/B", None, None, 50, None, 1672531200, false, false)
  const ExamplePinned := [PinnedEntry("B", "", None, "https://github.com/u/B")]

  /** In the worked example both repositories are published, and only B is flagged pinned. */
  lemma ExampleNormalized()
    ensures var n := NormalizeAll(Filter([ExampleA, ExampleB], IsPublished), PinnedNames(ExamplePinned));
            && |n| == 2
            && n[0].name == "A" && !n[0].isPinned
            && n[1].name == "B" && n[1].isPinned && n[1].stargazersCount == 50
  {
    assert Lower("B") == "b" && Lower("A") == "a";
    assert PinnedNames(ExamplePinned) == {"b"};
    assert Filter([ExampleA, ExampleB], IsPublished) == [ExampleA, ExampleB] by {
      assert [ExampleA, ExampleB][1..] == [ExampleB];
      assert [ExampleB][1..] == [];
    }
  }

  /** The worked example comes out as B, flagged pinned, then A. */
  lemma PinnedFirstExample()
    ensures var out := ProcessRepositoryData([ExampleA, ExampleB], ExamplePinned).processedRepos;
            |out| == 2 && out[0].name == "B" && out[0].isPinned && out[1].name == "A" && !out[1].isPinned
  {
    ExampleNormalized();
    var n := NormalizeAll(Filter([ExampleA, ExampleB], IsPublished), PinnedNames(ExamplePinned));
    var na, nb := n[0], n[1];
    assert n == [na, nb];
    assert Sort([na, nb]) == [nb, na] by {
      assert [na, nb][1..] == [nb];
      assert [nb][1..] == [];
      assert Sort([nb]) == [nb];
      assert Compare(nb, na) < 0;
      assert Insert(na, [nb]) == [nb] + Insert(na, []);
    }
  }
}
