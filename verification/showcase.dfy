/** The data-driven decisions of the portfolio page script: which repositories are shown in
    which section, and the tags, title, links and age label of each project card. */
module Showcase {
  import opened Wrappers
  import opened Text
  import opened Seqs
  import opened GitHubData
  import RepoProcessor

  /** At most this many repositories appear under "Recent Activity". */
  const RecentLimit: nat := 5

  datatype Sections = Sections(featured: seq<Repository>, recent: seq<Repository>)

  /** `fetchGitHubData`: the pinned repositories are featured; the first five unpinned ones, in
      file order, are recent. */
  function SplitRepositories(repos: seq<Repository>): (s: Sections)
    ensures s.featured == Filter(repos, RepoProcessor.Pinned)
    ensures |s.recent| <= RecentLimit
    ensures var unpinned := Filter(repos, RepoProcessor.Unpinned);
            |s.recent| == (if |unpinned| < RecentLimit then |unpinned| else RecentLimit) &&
            s.recent == unpinned[..|s.recent|]
  {
    var unpinned := Filter(repos, RepoProcessor.Unpinned);
    Sections(Filter(repos, RepoProcessor.Pinned),
             unpinned[..if |unpinned| < RecentLimit then |unpinned| else RecentLimit])
  }

  /** The sections never share a repository: every featured one is pinned, every recent one is
      not; and the featured list together with all unpinned ones is exactly the input. */
  lemma SectionsDisjoint(repos: seq<Repository>)
    ensures var s := SplitRepositories(repos);
            && (forall x :: x in s.featured ==> x.isPinned)
            && (forall x :: x in s.recent ==> !x.isPinned)
            && (forall x :: x in s.featured ==> x !in s.recent)
            && multiset(s.featured) + multiset(Filter(repos, RepoProcessor.Unpinned)) == multiset(repos)
  {
    var s := SplitRepositories(repos);
    var unpinned := Filter(repos, RepoProcessor.Unpinned);
    FilterMembers(repos, RepoProcessor.Pinned);
    FilterMembers(repos, RepoProcessor.Unpinned);
    forall x | x in s.recent ensures !x.isPinned {
      var i :| 0 <= i < |s.recent| && s.recent[i] == x;
      assert x == unpinned[i];
      assert x in unpinned;
    }
    FilterPartition(repos, RepoProcessor.Pinned, RepoProcessor.Unpinned);
  }

  /** How the project card is used. */
  datatype CardKind = Featured | Recent

  /** `languageMap`: the languages that get a tag, and the tag's text. */
  const LanguageTags: map<string, string> := map[
    "JavaScript" := "JavaScript", "TypeScript" := "TypeScript", "Go" := "Go", "Java" := "Java",
    "Python" := "Python", "Rust" := "Rust", "HTML" := "HTML5", "CSS" := "CSS3",
    "Shell" := "Shell", "Dockerfile" := "Docker"]

  /** The number of topic tags a card shows. */
  function TopicLimit(kind: CardKind): nat {
    if kind == Featured then 4 else 2
  }

  /** A topic as a tag: its first character upper-cased and the first `-` after it made a space;
      every other character is kept. */
  function FormatTopic(topic: string): (r: string)
    ensures |r| == |topic|
    ensures topic != [] ==> r[0] == UpperChar(topic[0])
    ensures forall i :: 1 <= i < |topic| ==> r[i] == if FirstHyphen(topic, i) then ' ' else topic[i]
  {
    if topic == [] then []
    else
      var rest := topic[1..];
      var d := FirstIndex(rest, '-');
      var r := [UpperChar(topic[0])] + ReplaceFirst(rest, '-', ' ');
      assert forall i :: 1 <= i < |topic| ==> r[i] == if FirstHyphen(topic, i) then ' ' else topic[i] by {
        forall i | 1 <= i < |topic| ensures r[i] == if FirstHyphen(topic, i) then ' ' else topic[i] {
          assert r[i] == if i - 1 == d then ' ' else rest[i - 1];
          assert topic[i] == rest[i - 1];
        }
      }
      r
  }

  /** Position `i` holds the first `-` after the topic's first character. */
  predicate FirstHyphen(topic: string, i: nat)
    requires i < |topic|
  {
    topic[i] == '-' && forall j :: 1 <= j < i ==> topic[j] != '-'
  }

  function FormatTopics(topics: seq<string>): (r: seq<string>)
    ensures |r| == |topics|
    ensures forall i :: 0 <= i < |topics| ==> r[i] == FormatTopic(topics[i])
  {
    if topics == [] then [] else [FormatTopic(topics[0])] + FormatTopics(topics[1..])
  }

  /** The tag `languageMap` gives a repository's language, if it gives one. */
  function LanguageTag(language: Option<string>): (tag: Option<string>)
    ensures tag.Some? <==> language.Some? && language.value in LanguageTags
    ensures tag.Some? ==> tag.value == LanguageTags[language.value]
  {
    if language.Some? && language.value in LanguageTags then Some(LanguageTags[language.value]) else None
  }

  function LanguageTagCount(repo: Repository): nat {
    if LanguageTag(repo.language).Some? then 1 else 0
  }

  /** The number of topics a card turns into tags. */
  function ShownTopics(repo: Repository, kind: CardKind): nat {
    if |repo.topics| < TopicLimit(kind) then |repo.topics| else TopicLimit(kind)
  }

  /** The topics a card shows, as tags: the first four (featured) or two (recent), in order. */
  function TopicTags(repo: Repository, kind: CardKind): (t: seq<string>)
    ensures |t| == ShownTopics(repo, kind)
    ensures forall i :: 0 <= i < |t| ==> t[i] == FormatTopic(repo.topics[i])
  {
    var shown := repo.topics[..ShownTopics(repo, kind)];
    var formatted := FormatTopics(shown);
    assert forall i :: 0 <= i < |shown| ==> shown[i] == repo.topics[i];
    formatted
  }

  /** The tech tags of a card: the language's tag when the language is one of the mapped ones,
      then the first four (featured) or two (recent) topics as tags. */
  function TechTags(repo: Repository, kind: CardKind): (tags: seq<string>)
    ensures |tags| == LanguageTagCount(repo) + ShownTopics(repo, kind)
    ensures |tags| <= TopicLimit(kind) + 1
    ensures LanguageTag(repo.language).Some? ==> tags[0] == LanguageTag(repo.language).value
    ensures forall i :: 0 <= i < ShownTopics(repo, kind) ==>
              tags[LanguageTagCount(repo) + i] == FormatTopic(repo.topics[i])
  {
    var topics := TopicTags(repo, kind);
    var language := LanguageTag(repo.language);
    if language.Some? then
      var tags := [language.value] + topics;
      assert forall i :: 0 <= i < |topics| ==> tags[1 + i] == topics[i];
      tags
    else
      topics
  }

  /** `\w` of a regular expression without the `u` flag. */
  predicate IsWordChar(c: char) {
    ('a' <= c <= 'z') || ('A' <= c <= 'Z') || ('0' <= c <= '9') || c == '_'
  }

  /** Position `i` holds a word character that follows no word character: a `\b\w` match. */
  predicate StartsWord(s: string, i: nat)
    requires i < |s|
  {
    IsWordChar(s[i]) && (i == 0 || !IsWordChar(s[i - 1]))
  }

  /** Upper-cases the first character of every word, scanning with the word-ness of the
      previous character. */
  function CapitalizeWords(s: string, afterWord: bool): (r: string)
    ensures |r| == |s|
    ensures |s| > 0 ==> r[0] == if IsWordChar(s[0]) && !afterWord then UpperChar(s[0]) else s[0]
    ensures forall i :: 1 <= i < |s| ==> r[i] == if StartsWord(s, i) then UpperChar(s[i]) else s[i]
  {
    if s == [] then []
    else
      var c := s[0];
      var rest := CapitalizeWords(s[1..], IsWordChar(c));
      var r := [if IsWordChar(c) && !afterWord then UpperChar(c) else c] + rest;
      assert forall i :: 1 <= i < |s| ==> r[i] == rest[i - 1] && s[1..][i - 1] == s[i];
      assert forall i :: 1 <= i < |s| - 1 ==> s[1..][i - 1] == s[i];
      r
  }

  /** The card title: every `-` of the name becomes a space, then each character that starts a
      word is upper-cased; nothing else changes. */
  function DisplayName(name: string): (r: string)
    ensures |r| == |name|
    ensures var spaced := ReplaceAll(name, '-', ' ');
            forall i :: 0 <= i < |name| ==> r[i] == if StartsWord(spaced, i) then UpperChar(spaced[i]) else spaced[i]
  {
    CapitalizeWords(ReplaceAll(name, '-', ' '), false)
  }

  /** A "Live Demo" link is shown exactly when the homepage is set and not blank. */
  function HasDemoLink(homepage: Option<string>): (b: bool)
    ensures b <==> homepage.Some? && !AllWhitespace(homepage.value)
  {
    if homepage.Some? && homepage.value != "" then
      TrimEmpty(homepage.value);
      Trim(homepage.value) != ""
    else
      false
  }

  /** How long ago a repository was updated, by whole days. */
  datatype Age = Yesterday | DaysAgo(n: nat) | WeeksAgo(n: nat) | MonthsAgo(n: nat) | YearsAgo(n: nat)

  /** `formatDate` on the day count: 1 is "yesterday", fewer than 7 are days, fewer than 30 are
      weeks rounded up, fewer than 365 are months of 30 days rounded up, the rest years of 365
      days rounded up. */
  function AgeOf(days: nat): (a: Age)
    ensures a == Yesterday <==> days == 1
    ensures a.DaysAgo? <==> days < 7 && days != 1
    ensures a.DaysAgo? ==> a.n == days
    ensures a.WeeksAgo? <==> 7 <= days < 30
    ensures a.WeeksAgo? ==> 7 * (a.n - 1) < days <= 7 * a.n
    ensures a.MonthsAgo? <==> 30 <= days < 365
    ensures a.MonthsAgo? ==> 30 * (a.n - 1) < days <= 30 * a.n
    ensures a.YearsAgo? <==> 365 <= days
    ensures a.YearsAgo? ==> 365 * (a.n - 1) < days <= 365 * a.n
  {
    if days == 1 then Yesterday
    else if days < 7 then DaysAgo(days)
    else if days < 30 then WeeksAgo((days + 6) / 7)
    else if days < 365 then MonthsAgo((days + 29) / 30)
    else YearsAgo((days + 364) / 365)
  }

  /** The week count runs from 1 to 5 and the month count from 1 to 13: 361 to 364 days read as
      "13 months ago". */
  lemma AgeRanges(days: nat)
    ensures AgeOf(days).WeeksAgo? ==> 1 <= AgeOf(days).n <= 5
    ensures AgeOf(days).MonthsAgo? ==> 1 <= AgeOf(days).n <= 13
    ensures AgeOf(days).YearsAgo? ==> AgeOf(days).n >= 1
    ensures 361 <= days <= 364 ==> AgeOf(days) == MonthsAgo(13)
  {
  }

  /** The label `formatDate` returns. */
  function FormatDate(days: nat): (s: string)
    ensures days == 1 <==> s == "yesterday"
    ensures days != 1 && days < 7 ==> s == NatToString(days) + " days ago"
    ensures 7 <= days < 30 ==> s == NatToString(AgeOf(days).n) + " weeks ago"
    ensures 30 <= days < 365 ==> s == NatToString(AgeOf(days).n) + " months ago"
    ensures 365 <= days ==> s == NatToString(AgeOf(days).n) + " years ago"
  {
    match AgeOf(days)
    case Yesterday => "yesterday"
    case DaysAgo(n) => NatToString(n) + " days ago"
    case WeeksAgo(n) => NatToString(n) + " weeks ago"
    case MonthsAgo(n) => NatToString(n) + " months ago"
    case YearsAgo(n) => NatToString(n) + " years ago"
  }

  /** The activity line of a recent card: the age label and, when there are any, the stars. */
  datatype Activity = Activity(updated: string, stars: Option<int>)

  /** What a project card shows, short of its markup. `codeUrl` is the "View Code" link,
      `demoUrl` the "Live Demo" link. */
  datatype Card = Card(
    title: string,
    description: string,
    tags: seq<string>,
    codeUrl: string,
    demoUrl: Option<string>,
    activity: Option<Activity>)

  /** `generateProjectCard` for a repository updated `days` days ago. */
  function GenerateProjectCard(repo: Repository, kind: CardKind, days: nat): (c: Card)
    ensures c.title == DisplayName(repo.name) && c.tags == TechTags(repo, kind)
    ensures c.description == repo.description
    ensures c.codeUrl == repo.htmlUrl
    ensures c.demoUrl.Some? <==> repo.homepage.Some? && !AllWhitespace(repo.homepage.value)
    ensures c.demoUrl.Some? ==> c.demoUrl == repo.homepage
    ensures c.activity.Some? <==> kind == Recent
    ensures c.activity.Some? ==> c.activity.value.updated == FormatDate(days)
    ensures c.activity.Some? ==> (c.activity.value.stars.Some? <==> repo.stargazersCount > 0)
    ensures c.activity.Some? && c.activity.value.stars.Some? ==>
              c.activity.value.stars.value == repo.stargazersCount
  {
    Card(
      DisplayName(repo.name),
      repo.description,
      TechTags(repo, kind),
      repo.htmlUrl,
      if HasDemoLink(repo.homepage) then repo.homepage else None,
      if kind == Recent
      then Some(Activity(FormatDate(days), if repo.stargazersCount > 0 then Some(repo.stargazersCount) else None))
      else None)
  }
}
