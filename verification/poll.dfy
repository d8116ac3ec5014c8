/** `C1WebSitePollAndWriter`'s decision logic: one poll cycle as a state
    transition over the visited-link cache, the write gate, the jittered
    sleep, and finitely many turns of the polling loop. The browser steps
    that post the reply are one abstract `Write(link)` event: a cycle's
    `written` list is the sequence of those events, in the order issued. */
module Poll {
  import opened Wrappers
  import opened Html
  import opened Extractor
  import opened LinkCache
  import opened UserConfig

  /** A fetched listing page: the response text, and the element tree the
      HTML parser builds from that text. The tree's root is the parser's
      document object, so every tag of the page lies below it. */
  datatype Page = Page(text: string, tree: Element)

  /** The cache after some writing, and the links written, in order. */
  datatype Outcome = Outcome(cache: Cache, written: seq<Link>)

  predicate NoDuplicates(s: seq<Link>) {
    forall i, j :: 0 <= i < j < |s| ==> s[i] != s[j]
  }

  /** The matching rule: an entry is acted on when its author is blocked. */
  predicate IsBlocked(blocked: set<string>, entry: AuthorLink) {
    entry.author in blocked
  }

  /** The links of the blocked entries, in listing order. */
  function MatchedLinks(blocked: set<string>, entries: seq<AuthorLink>): (r: seq<Link>)
    ensures |r| <= |entries|
    ensures forall k :: 0 <= k < |entries| && IsBlocked(blocked, entries[k]) ==> entries[k].link in r
    ensures forall l :: l in r ==> exists k :: 0 <= k < |entries| && IsBlocked(blocked, entries[k]) && entries[k].link == l
  {
    if entries == [] then []
    else
      var rest := MatchedLinks(blocked, entries[1..]);
      assert forall k :: 1 <= k < |entries| ==> entries[k] == entries[1..][k - 1];
      (if IsBlocked(blocked, entries[0]) then [entries[0].link] else []) + rest
  }

  lemma MatchedLinksAppend(blocked: set<string>, a: seq<AuthorLink>, b: seq<AuthorLink>)
    ensures MatchedLinks(blocked, a + b) == MatchedLinks(blocked, a) + MatchedLinks(blocked, b)
  {
    if a != [] {
      assert (a + b)[1..] == a[1..] + b;
      MatchedLinksAppend(blocked, a[1..], b);
    } else {
      assert a + b == b;
    }
  }

  /** `_write_output`: a link already in the cache is skipped; otherwise it is
      written and then committed to the cache. */
  function WriteOutput(c: Cache, link: Link): (r: Outcome)
    ensures r.written == [] <==> IsHit(c, link)
    ensures r.written != [] ==> r.written == [link]
    ensures IsHit(r.cache, link)
    ensures forall l :: IsHit(r.cache, l) <==> IsHit(c, l) || l in r.written
  {
    if IsHit(c, link) then Outcome(c, [])
    else Outcome(AddEntry(c, link), [link])
  }

  /** One further entry handled after an outcome: written through the gate
      when its author is blocked, skipped otherwise. */
  function StepOne(o: Outcome, blocked: set<string>, entry: AuthorLink): Outcome {
    if IsBlocked(blocked, entry) then
      var g := WriteOutput(o.cache, entry.link);
      Outcome(g.cache, o.written + g.written)
    else o
  }

  /** The loop of `_do_oneshot_poll_and_write_bbs`: the entries in listing
      order, each handled after all earlier ones. No link is written twice,
      none that was already cached is written, and afterwards the cache holds
      exactly the old links plus every matched link, the written ones being
      the new ones. */
  function WriteMatched(c: Cache, blocked: set<string>, entries: seq<AuthorLink>): (r: Outcome)
    ensures NoDuplicates(r.written)
    ensures forall i :: 0 <= i < |r.written| ==> !IsHit(c, r.written[i])
    ensures forall l :: l in r.written ==> l in MatchedLinks(blocked, entries)
    ensures forall l :: IsHit(r.cache, l) <==> IsHit(c, l) || l in r.written
    ensures forall l :: IsHit(r.cache, l) <==> IsHit(c, l) || l in MatchedLinks(blocked, entries)
    decreases |entries|
  {
    if entries == [] then Outcome(c, [])
    else
      var init := entries[..|entries| - 1];
      var last := entries[|entries| - 1];
      var o := WriteMatched(c, blocked, init);
      assert entries == init + [last];
      assert [last][1..] == [];
      MatchedLinksAppend(blocked, init, [last]);
      StepOne(o, blocked, last)
  }

  lemma WriteMatchedSnoc(c: Cache, blocked: set<string>, entries: seq<AuthorLink>, x: AuthorLink)
    ensures WriteMatched(c, blocked, entries + [x]) == StepOne(WriteMatched(c, blocked, entries), blocked, x)
  {
    assert (entries + [x])[..|entries|] == entries;
  }

  /** Reference definition of what a cycle should write: each listed link
      the first time it occurs, unless it was already seen. */
  function FreshFirsts(links: seq<Link>, seen: set<Link>): seq<Link>
    decreases |links|
  {
    if links == [] then []
    else
      var init := links[..|links| - 1];
      var last := links[|links| - 1];
      FreshFirsts(init, seen) + (if last in seen || last in init then [] else [last])
  }

  /** The cycle's writes are exactly the reference: the matched links in
      listing order, first occurrences only, minus those already cached. */
  lemma {:induction false} WrittenAreFreshFirsts(c: Cache, blocked: set<string>, entries: seq<AuthorLink>)
    ensures WriteMatched(c, blocked, entries).written == FreshFirsts(MatchedLinks(blocked, entries), c.entries)
    decreases |entries|
  {
    if entries != [] {
      var init := entries[..|entries| - 1];
      var x := entries[|entries| - 1];
      assert entries == init + [x];
      WrittenAreFreshFirsts(c, blocked, init);
      WriteMatchedSnoc(c, blocked, init, x);
      MatchedLinksAppend(blocked, init, [x]);
      assert [x][1..] == [];
      var ml := MatchedLinks(blocked, entries);
      var mi := MatchedLinks(blocked, init);
      if IsBlocked(blocked, x) {
        assert ml == mi + [x.link];
        assert ml[..|ml| - 1] == mi;
      } else {
        assert ml == mi;
      }
    }
  }

  /** Once every matched link is cached, a cycle writes nothing and leaves
      the cache as it is. */
  lemma {:induction false} AllCachedWritesNothing(c: Cache, blocked: set<string>, entries: seq<AuthorLink>)
    requires forall l :: l in MatchedLinks(blocked, entries) ==> IsHit(c, l)
    ensures WriteMatched(c, blocked, entries) == Outcome(c, [])
    decreases |entries|
  {
    if entries != [] {
      var init := entries[..|entries| - 1];
      var last := entries[|entries| - 1];
      assert entries == init + [last];
      assert [last][1..] == [];
      MatchedLinksAppend(blocked, init, [last]);
      AllCachedWritesNothing(c, blocked, init);
      if IsBlocked(blocked, last) {
        assert last.link in MatchedLinks(blocked, entries);
      }
    }
  }

  /** `_do_oneshot_poll_and_write_bbs`: no page, or an empty one, means
      nothing to do; otherwise the extracted entries go through the gate. */
  function OneshotPoll(c: Cache, ir: UserConfigIR, dump: Option<Page>): (r: Outcome)
    ensures dump.None? || dump.value.text == [] ==> r == Outcome(c, [])
    ensures NoDuplicates(r.written)
    ensures forall i :: 0 <= i < |r.written| ==> !IsHit(c, r.written[i])
    ensures forall l :: IsHit(r.cache, l) <==> IsHit(c, l) || l in r.written
    ensures forall l :: l in r.written ==>
              dump.Some? && exists e :: e in Extract(dump.value.tree) && e.author in ir.blockedAuthorNameSet && e.link == l
    ensures dump.Some? && dump.value.text != [] ==>
              forall e :: e in Extract(dump.value.tree) && e.author in ir.blockedAuthorNameSet ==> IsHit(r.cache, e.link)
  {
    if dump.None? || dump.value.text == [] then Outcome(c, [])
    else WriteMatched(c, ir.blockedAuthorNameSet, Extract(dump.value.tree))
  }

  /** Polling the same listing again right away writes nothing. */
  lemma RepeatedPollWritesNothing(c: Cache, ir: UserConfigIR, dump: Option<Page>)
    ensures OneshotPoll(OneshotPoll(c, ir, dump).cache, ir, dump) == Outcome(OneshotPoll(c, ir, dump).cache, [])
  {
    if dump.Some? && dump.value.text != [] {
      var entries := Extract(dump.value.tree);
      AllCachedWritesNothing(OneshotPoll(c, ir, dump).cache, ir.blockedAuthorNameSet, entries);
    }
  }

  /** The end-to-end case: one matching entry not yet cached is written
      exactly once and becomes a hit; a second identical cycle writes nothing. */
  lemma SingleMatchWrittenOnce(c: Cache, ir: UserConfigIR, page: Page, entry: AuthorLink)
    requires page.text != []
    requires Extract(page.tree) == [entry]
    requires entry.author in ir.blockedAuthorNameSet
    requires !IsHit(c, entry.link)
    ensures OneshotPoll(c, ir, Some(page)).written == [entry.link]
    ensures IsHit(OneshotPoll(c, ir, Some(page)).cache, entry.link)
    ensures OneshotPoll(OneshotPoll(c, ir, Some(page)).cache, ir, Some(page)).written == []
  {
    var blocked := ir.blockedAuthorNameSet;
    var first := WriteOutput(c, entry.link);
    assert [entry][1..] == [];
    assert WriteMatched(first.cache, blocked, []) == Outcome(first.cache, []);
    assert WriteMatched(c, blocked, [entry]).written == first.written;
    RepeatedPollWritesNothing(c, ir, Some(page));
  }

  /** The jitter bounds and base of `_get_time_to_sleep_in_sec`. */
  const BaseTimeToSleepInSec := 30
  const JitterLow := -10
  const JitterHigh := 10

  /** `_get_time_to_sleep_in_sec`, with the draw of `random.randrange(-10, 10)`
      passed in as `offset`. */
  function TimeToSleepInSec(offset: int): (t: int)
    requires JitterLow <= offset < JitterHigh
    ensures 20 <= t <= 39
    ensures t - BaseTimeToSleepInSec == offset
  {
    BaseTimeToSleepInSec + offset
  }

  /** Every whole number of seconds from 20 to 39 is a possible sleep. */
  lemma EverySleepReachable(t: int)
    requires 20 <= t <= 39
    ensures exists offset :: JitterLow <= offset < JitterHigh && TimeToSleepInSec(offset) == t
  {
    assert TimeToSleepInSec(t - BaseTimeToSleepInSec) == t;
  }

  /** Finitely many turns of the polling loop. */
  datatype Run = Run(cache: Cache, written: seq<Link>, sleeps: seq<int>)

  /** The `while True` loop of the method `poll_and_write_bbs`, cut to one
      turn per fetched page: poll, then sleep for the jittered interval. */
  function PollLoop(c: Cache, ir: UserConfigIR, dumps: seq<Option<Page>>, offsets: seq<int>): (r: Run)
    requires |offsets| == |dumps|
    requires forall i :: 0 <= i < |offsets| ==> JitterLow <= offsets[i] < JitterHigh
    ensures NoDuplicates(r.written)
    ensures forall i :: 0 <= i < |r.written| ==> !IsHit(c, r.written[i])
    ensures forall l :: IsHit(r.cache, l) <==> IsHit(c, l) || l in r.written
    ensures |r.sleeps| == |dumps|
    ensures forall i :: 0 <= i < |r.sleeps| ==> 20 <= r.sleeps[i] <= 39
    decreases |dumps|
  {
    if dumps == [] then Run(c, [], [])
    else
      var o := OneshotPoll(c, ir, dumps[0]);
      var rest := PollLoop(o.cache, ir, dumps[1..], offsets[1..]);
      var r := Run(rest.cache, o.written + rest.written, [TimeToSleepInSec(offsets[0])] + rest.sleeps);
      assert forall i :: 0 <= i < |rest.written| ==> r.written[|o.written| + i] == rest.written[i];
      r
  }

  /** The poller from start-up (the constructor of `C1WebSitePollAndWriter`
      loads the cache, then the method `poll_and_write_bbs` runs its loop).
      A truncated cache file ends start-up. Otherwise, over the whole run no
      link is written twice and no link saved in the file is written; with
      no file at all, the final cache is exactly the set of written links. */
  function PollAndWriteBbs(store: Store, ir: UserConfigIR, dumps: seq<Option<Page>>, offsets: seq<int>)
    : (r: Result<Run, LoadError>)
    requires |offsets| == |dumps|
    requires forall i :: 0 <= i < |offsets| ==> JitterLow <= offsets[i] < JitterHigh
    ensures r.Failure? <==> store.Truncated?
    ensures r.Success? ==> NoDuplicates(r.value.written)
    ensures store.Saved? ==> forall i :: 0 <= i < |r.value.written| ==> r.value.written[i] !in store.links
    ensures store.NoFile? ==> forall l :: IsHit(r.value.cache, l) <==> l in r.value.written
  {
    match Load(store)
    case Failure(e) => Failure(e)
    case Success(c) => Success(PollLoop(c, ir, dumps, offsets))
  }

  /** At-most-once holds across restarts only while the file reads back: a
      link already saved is not written again, but once the file is
      unreadable the cache starts empty and the same link is written again. */
  lemma UnreadableFileRewrites(ir: UserConfigIR, page: Page, entry: AuthorLink)
    requires page.text != []
    requires Extract(page.tree) == [entry]
    requires entry.author in ir.blockedAuthorNameSet
    ensures PollAndWriteBbs(Saved({entry.link}), ir, [Some(page)], [0]).value.written == []
    ensures PollAndWriteBbs(Unreadable, ir, [Some(page)], [0]).value.written == [entry.link]
  {
    var blocked := ir.blockedAuthorNameSet;
    var saved := Cache({entry.link});
    var empty := Cache({});
    assert PollLoop(saved, ir, [Some(page)], [0]).written == [] by {
      AllCachedWritesNothing(saved, blocked, [entry]);
      OnePageLoop(saved, ir, page);
    }
    assert PollLoop(empty, ir, [Some(page)], [0]).written == [entry.link] by {
      SingleMatchWrittenOnce(empty, ir, page, entry);
      OnePageLoop(empty, ir, page);
    }
  }

  /** A loop over one page writes what one cycle over that page writes. */
  lemma OnePageLoop(c: Cache, ir: UserConfigIR, page: Page)
    ensures PollLoop(c, ir, [Some(page)], [0]).written == OneshotPoll(c, ir, Some(page)).written
  {
    assert [Some(page)][1..] == [];
    assert [0][1..] == [];
    var o := OneshotPoll(c, ir, Some(page));
    assert PollLoop(o.cache, ir, [], []).written == [];
  }
}
