/** The sequential part of the fetcher's `main`: once the three requests have completed, the
    listing and the pinned entries are processed and wrapped in the document to be written. */
module FetchPipeline {
  import opened GitHubData
  import opened RepoLister
  import opened PinnedScraper
  import opened RepoProcessor

  /** The profile request: the parsed profile, or the status of a response that was not ok. */
  datatype ProfileFetch<U> = Profile(user: U) | ProfileRefused(status: int)

  /** The run ends with the document to write (exit code 0) or with a hard failure (exit
      code 1). */
  datatype RunOutcome = Written(doc: Document) | Failed

  /** The pinned entries the scrape delivers to the aggregation, never a failure. */
  function ScrapedEntries(username: string, page: ProfileResponse): seq<PinnedEntry> {
    if Ok(page) then Extracted(username, page.blocks) else []
  }

  /** `main` after the join: a refused profile request or an aborted listing fails the run;
      a failed scrape only leaves every repository unpinned. */
  method Run<U>(username: string, profile: ProfileFetch<U>, source: nat -> PageResponse, ghost limit: nat,
                page: ProfileResponse) returns (outcome: RunOutcome)
    requires EndsBy(source, limit)
    ensures outcome.Failed? <==> profile.ProfileRefused? || Collect(source, 1, limit).Aborted?
    ensures outcome.Written? ==>
              outcome.doc.repositories ==
              ProcessRepositoryData(Collect(source, 1, limit).repos, ScrapedEntries(username, page)).processedRepos
    ensures outcome.Written? && !Ok(page) ==> forall x :: x in outcome.doc.repositories ==> !x.isPinned
  {
    var listing := FetchPublicRepositories(source, limit);
    var pinned := FetchPinnedRepositories(username, page);
    if profile.ProfileRefused? || listing.Aborted? {
      return Failed;
    }
    var processed := ProcessRepositoryData(listing.repos, pinned);
    var data := GenerateGitHubData(profile.user, processed.processedRepos, processed.featuredRepos);
    if !Ok(page) {
      NothingPinnedWithoutEntries(listing.repos);
    }
    return Written(data);
  }
}
