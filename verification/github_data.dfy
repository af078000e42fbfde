/** The records that flow through the GitHub data fetcher. */
module GitHubData {
  import opened Wrappers

  /** One repository as the listing endpoint returns it. Nullable JSON fields are options;
      `updatedAt` is the update time as an integer timestamp. */
  datatype RawRepo = RawRepo(
    name: string,
    description: Option<string>,
    htmlUrl: string,
    homepage: Option<string>,
    language: Option<string>,
    stargazersCount: int,
    topics: Option<seq<string>>,
    updatedAt: int,
    fork: bool,
    private: bool)

  /** One pinned repository recovered from the profile page. */
  datatype PinnedEntry = PinnedEntry(
    name: string,
    description: string,
    language: Option<string>,
    htmlUrl: string)

  /** One repository in the published data file, as the front end reads it. */
  datatype Repository = Repository(
    name: string,
    description: string,
    htmlUrl: string,
    homepage: Option<string>,
    language: Option<string>,
    stargazersCount: int,
    topics: seq<string>,
    updatedAt: int,
    isPinned: bool)

  /** The published data file: `{ "repositories": [...] }`. */
  datatype Document = Document(repositories: seq<Repository>)

  /** JavaScript truthiness of a nullable string: present and not empty. */
  predicate Truthy(s: Option<string>) {
    s.Some? && s.value != ""
  }
}
