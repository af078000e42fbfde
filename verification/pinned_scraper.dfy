/** The pinned-repository scrape of the GitHub data fetcher, at the level of matched blocks and
    their captured groups. */
module PinnedScraper {
  import opened Wrappers
  import opened Text
  import opened Seqs
  import opened GitHubData

  /** One pinned-item block of the profile page, with what the name, description and language
      patterns capture inside it (`None` when a pattern finds no match in the block). */
  datatype Block = Block(name: Option<string>, description: Option<string>, languageLabel: Option<string>)

  /** The profile page request: an HTTP response with its status and the pinned-item blocks of
      its body, or a request that failed outright. */
  datatype ProfileResponse = Response(status: int, blocks: seq<Block>) | NetworkFailure

  /** `response.ok`: a status in the 200 range. */
  predicate Ok(r: ProfileResponse) {
    r.Response? && 200 <= r.status <= 299
  }

  const GitHubBase := "https://github.com/"

  predicate Named(b: Block) {
    b.name.Some?
  }

  /** The entry a named block yields. */
  function EntryOf(username: string, b: Block): (e: PinnedEntry)
    requires Named(b)
    ensures e.name == b.name.value
    ensures NoTag(e.description)
    ensures b.description.None? ==> e.description == ""
    ensures e.language.Some? <==> b.languageLabel.Some?
    ensures e.language.Some? ==> IsTrimmed(e.language.value)
    ensures b.languageLabel.Some? ==> exists k: nat :: IsTrimOf(b.languageLabel.value, e.language.value, k)
    ensures b.description.Some? ==> e.description == StripTags(Trim(b.description.value))
    ensures b.description.Some? && NoTag(b.description.value) ==>
              exists k: nat :: IsTrimOf(b.description.value, e.description, k)
    ensures e.htmlUrl == GitHubBase + username + "/" + b.name.value
  {
    assert b.description.Some? ==> (NoTag(b.description.value) ==>
             StripTags(Trim(b.description.value)) == Trim(b.description.value)) by {
      if b.description.Some? {
        TrimKeepsNoTag(b.description.value);
      }
    }
    PinnedEntry(
      b.name.value,
      if b.description.Some? then StripTags(Trim(b.description.value)) else "",
      if b.languageLabel.Some? then Some(Trim(b.languageLabel.value)) else None,
      GitHubBase + username + "/" + b.name.value)
  }

  /** The entries of `blocks`, in block order, skipping the blocks without a name. */
  function Extracted(username: string, blocks: seq<Block>): (r: seq<PinnedEntry>)
    ensures |r| <= |blocks|
  {
    if blocks == [] then []
    else if Named(blocks[0]) then [EntryOf(username, blocks[0])] + Extracted(username, blocks[1..])
    else Extracted(username, blocks[1..])
  }

  /** The scrape loop: one entry per block with a name match, appended in order. */
  method ExtractPinned(username: string, blocks: seq<Block>) returns (pinned: seq<PinnedEntry>)
    ensures pinned == Extracted(username, blocks)
  {
    pinned := [];
    var i := 0;
    while i < |blocks|
      invariant 0 <= i <= |blocks|
      invariant pinned + Extracted(username, blocks[i..]) == Extracted(username, blocks)
    {
      var block := blocks[i];
      assert blocks[i..] == [block] + blocks[i + 1..];
      if Named(block) {
        pinned := pinned + [EntryOf(username, block)];
      }
      i := i + 1;
    }
  }

  /** `fetchPinnedRepositories`: the entries of the profile page, or none at all when the page
      could not be fetched or its status was not ok; the failure never propagates. */
  method FetchPinnedRepositories(username: string, response: ProfileResponse) returns (pinned: seq<PinnedEntry>)
    ensures !Ok(response) ==> pinned == []
    ensures Ok(response) ==> pinned == Extracted(username, response.blocks)
  {
    if !Ok(response) {
      return [];
    }
    pinned := ExtractPinned(username, response.blocks);
  }

  /** The extraction is exactly the entries of the named blocks, in order: the same as filtering
      the named blocks and then converting each. */
  lemma {:induction false} ExtractedIsFilterMap(username: string, blocks: seq<Block>)
    ensures var named := Filter(blocks, Named);
            && |Extracted(username, blocks)| == |named|
            && forall i :: 0 <= i < |named| ==>
                 Named(named[i]) && Extracted(username, blocks)[i] == EntryOf(username, named[i])
  {
    if blocks != [] {
      ExtractedIsFilterMap(username, blocks[1..]);
      var named := Filter(blocks, Named);
      var rest := Filter(blocks[1..], Named);
      var out, restOut := Extracted(username, blocks), Extracted(username, blocks[1..]);
      if Named(blocks[0]) {
        assert named == [blocks[0]] + rest;
        assert out == [EntryOf(username, blocks[0])] + restOut;
        forall i | 0 <= i < |named| ensures Named(named[i]) && out[i] == EntryOf(username, named[i]) {
          if i > 0 {
            assert named[i] == rest[i - 1] && out[i] == restOut[i - 1];
          }
        }
      } else {
        assert named == rest && out == restOut;
      }
    }
  }

  /** A page whose blocks all lack a name match yields no entries. */
  lemma {:induction false} NoNamesNoEntries(username: string, blocks: seq<Block>)
    requires forall i :: 0 <= i < |blocks| ==> !Named(blocks[i])
    ensures Extracted(username, blocks) == []
  {
    if blocks != [] {
      NoNamesNoEntries(username, blocks[1..]);
    }
  }

  /** Extraction distributes over the blocks of a page in document order. */
  lemma {:induction false} ExtractedAppend(username: string, a: seq<Block>, b: seq<Block>)
    ensures Extracted(username, a + b) == Extracted(username, a) + Extracted(username, b)
  {
    if a == [] {
      assert a + b == b;
    } else {
      assert (a + b)[1..] == a[1..] + b;
      ExtractedAppend(username, a[1..], b);
    }
  }
}
