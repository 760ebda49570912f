/**
 * One collection run without its I/O: the page outcomes and the saved table
 * come in as values, the merged table and the count of new matches go out.
 */
module Pipeline {
  import opened Wrappers
  import opened Records
  import Normalizer
  import Accumulator
  import Merger

  /**
   * Collects the columns over the pages, builds the rows from them, merges them
   * with the saved table and reports how many rows the table gained.
   */
  method ScrapeMatches(pages: seq<Accumulator.Page>, playerSid: int, saved: Option<seq<Row>>)
    returns (table: seq<Row>, newMatches: int)
    ensures forall r | r in Merger.Prior(saved) :: r in table
    ensures forall replay | replay in Accumulator.SuccessfulReplays(pages) ::
              Normalizer.Normalize(replay, playerSid) in table
    ensures forall r | r in table ::
              || r in Merger.Prior(saved)
              || exists replay | replay in Accumulator.SuccessfulReplays(pages) :: r == Normalizer.Normalize(replay, playerSid)
    ensures Merger.NoDuplicates(table) && Merger.Descending(table)
    ensures newMatches == |table| - |Merger.Prior(saved)|
    ensures table == Merger.Merge(saved, Accumulator.CollectedRows(pages, playerSid)).table
    ensures newMatches == Merger.Merge(saved, Accumulator.CollectedRows(pages, playerSid)).newMatches
  {
    var columns := Accumulator.CollectMatches(pages, playerSid);
    ghost var replays := Accumulator.SuccessfulReplays(pages);
    Accumulator.FrameOfTabulate(Accumulator.CollectedRows(pages, playerSid));
    var frame := Accumulator.Frame(columns);
    var batch := frame.value;
    assert batch == Accumulator.NormalizeAll(replays, playerSid);
    var merged := Merger.Merge(saved, batch);
    table, newMatches := merged.table, merged.newMatches;
    Accumulator.NormalizeAllMembers(replays, playerSid);
  }

  /**
   * When no page succeeded and the saved table has no duplicate rows, the merge
   * keeps exactly the saved rows and reports no new match.
   */
  lemma AllPagesFailedKeepsTable(pages: seq<Accumulator.Page>, playerSid: int, prior: seq<Row>)
    requires forall p | 0 <= p < |pages| :: pages[p].None?
    requires Merger.NoDuplicates(prior)
    ensures Merger.Merge(Some(prior), Accumulator.CollectedRows(pages, playerSid)).newMatches == 0
    ensures multiset(Merger.Merge(Some(prior), Accumulator.CollectedRows(pages, playerSid)).table) == multiset(prior)
  {
    Accumulator.AllPagesFailed(pages);
    Merger.MergeAbsorbed(prior, Accumulator.CollectedRows(pages, playerSid));
  }
}
