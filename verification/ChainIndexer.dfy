/**
 `core/chain_indexer.go` without checkpoints: sections of the canonical chain
 are processed one after the other.  The lock is not held while a section is
 read block by block, so reorg notices and changes of the canonical index fall
 between any two steps.
 */
module ChainIndexers {
  import opened Prelude
  import opened ChainStore
  import opened Ancestors

  /** What the update loop is doing: waiting, or reading a section without the lock. */
  datatype Phase = Idle | Processing(section: nat, oldHead: Hash, done: nat, last: Hash)

  /** One step, each with the database as it is then. */
  datatype Event =
    | Notice(head: nat, reorg: bool)
    | Update(canon: Canon)
    | ResetFails(canon: Canon)
    | Read(canon: Canon, blocks: set<Block>, processed: bool)
    | Finish(canon: Canon, committed: bool)
    | Ask(canon: Canon)
    | Restart

  function SectionEnd(size: nat, k: nat): (n: nat)
    requires size > 0
    ensures n >= k
  {
    assert (k + 1) * size >= k + 1;
    (k + 1) * size - 1
  }

  /** The number of whole sections in a number of blocks. */
  function Complete(blocks: nat, size: nat): (k: nat)
    requires size > 0
    ensures k * size <= blocks < (k + 1) * size
  {
    blocks / size
  }

  ghost predicate HeadAt(heads: map<nat, Hash>, size: nat, k: nat)
    requires size > 0
  {
    && k in heads && heads[k].Digest? && heads[k].block.number == SectionEnd(size, k)
    && (k > 0 ==> k - 1 in heads) && Up(heads[k], size) == Some(if k == 0 then ZERO else heads[k - 1])
  }

  /** A head exists exactly for each stored section, and all lie on one parent-linked chain. */
  ghost predicate OneChain(heads: map<nat, Hash>, size: nat, stored: nat)
    requires size > 0
  {
    (forall k: nat :: k in heads <==> k < stored) && forall k: nat :: k < stored ==> HeadAt(heads, size, k)
  }

  ghost predicate SectionIsCanonical(heads: map<nat, Hash>, size: nat, canon: Canon, k: nat)
    requires size > 0
  {
    k in heads && heads[k] == ReadCanonical(canon, SectionEnd(size, k))
  }

  lemma EndsApart(size: nat, k: nat)
    requires size > 0 && k > 0
    ensures SectionEnd(size, k - 1) == SectionEnd(size, k) - size
  {
    assert (k + 1) * size == k * size + size;
  }

  /** If the last of some sections is canonical, so is every one before it. */
  lemma {:induction false} OneComparisonSuffices(heads: map<nat, Hash>, size: nat, stored: nat, canon: Canon, j: nat,
                                                 k: nat)
    requires size > 0 && OneChain(heads, size, stored) && ParentLinked(canon)
    requires j <= k < stored && SectionIsCanonical(heads, size, canon, k)
    ensures SectionIsCanonical(heads, size, canon, j)
    decreases k
  {
    assert HeadAt(heads, size, k);
    if j < k {
      EndsApart(size, k);
      CanonicalAncestor(canon, SectionEnd(size, k), size);
      assert SectionIsCanonical(heads, size, canon, k - 1);
      OneComparisonSuffices(heads, size, stored, canon, j, k - 1);
    }
  }

  lemma OneChainPrefix(heads: map<nat, Hash>, size: nat, stored: nat, fewer: nat)
    requires size > 0 && OneChain(heads, size, stored) && fewer <= stored
    ensures OneChain(FirstHeads(heads, fewer), size, fewer)
  {
    var t := FirstHeads(heads, fewer);
    forall k: nat | k < fewer ensures HeadAt(t, size, k) {
      assert HeadAt(heads, size, k);
    }
  }

  ghost function FirstHeads(heads: map<nat, Hash>, n: nat): map<nat, Hash> {
    map k | k in heads && k < n :: heads[k]
  }

  lemma OneChainExtends(heads: map<nat, Hash>, size: nat, stored: nat, head: Hash)
    requires size > 0 && OneChain(heads, size, stored)
    requires head.Digest? && head.block.number == SectionEnd(size, stored)
    requires Up(head, size) == Some(if stored == 0 then ZERO else heads[stored - 1])
    ensures OneChain(heads[stored := head], size, stored + 1)
  {
    var t := heads[stored := head];
    forall k: nat | k < stored + 1 ensures HeadAt(t, size, k) {
      if k < stored {
        assert HeadAt(heads, size, k);
      }
    }
  }

  /**
   The part of a section read so far follows the head the section started from,
   which is the last head stored unless sections were taken back since.
   */
  ghost predicate Reading(p: Phase, size: nat, stored: nat, heads: map<nat, Hash>) {
    p.Processing? ==>
      && (stored == p.section > 0 ==> p.section - 1 in heads && heads[p.section - 1] == p.oldHead)
      && stored <= p.section && p.done <= size && (p.section == 0 <==> p.oldHead == ZERO)
      && Up(p.last, p.done) == Some(p.oldHead)
      && (p.done > 0 ==> p.last.Digest? && p.last.block.number == p.section * size + p.done - 1)
  }

  lemma ReadsOne(p: Phase, size: nat, stored: nat, heads: map<nat, Hash>, b: Block)
    requires p.Processing? && Reading(p, size, stored, heads) && p.done < size
    requires b.number == p.section * size + p.done && b.parent == p.last
    ensures Reading(p.(done := p.done + 1, last := Digest(b)), size, stored, heads)
  {
  }

  /** What the indexer holds, as a value. */
  datatype Indexer = Indexer(stored: nat, known: nat, cascaded: nat, heads: map<nat, Hash>, phase: Phase) {
    function Last(): Hash {
      if stored > 0 && stored - 1 in heads then heads[stored - 1] else ZERO
    }
  }

  /** The sections left once those after the last canonical head are taken back. */
  ghost function Verified(heads: map<nat, Hash>, size: nat, canon: Canon, stored: nat): (k: nat)
    requires size > 0
    ensures k <= stored
  {
    if stored == 0 || SectionIsCanonical(heads, size, canon, stored - 1) then stored
    else Verified(heads, size, canon, stored - 1)
  }

  ghost function Cut(s: Indexer, k: nat): Indexer {
    s.(stored := k, heads := FirstHeads(s.heads, k))
  }

  ghost function Checked(s: Indexer, size: nat, canon: Canon): Indexer
    requires size > 0
  {
    Cut(s, Verified(s.heads, size, canon, s.stored))
  }

  ghost function Failed(s: Indexer, size: nat, canon: Canon): Indexer
    requires size > 0
  {
    var t := Checked(s, size, canon);
    t.(known := t.stored, phase := Idle)
  }

  /** What a reorg notice or a new head makes of the indexer. */
  ghost function Noticed(s: Indexer, size: nat, confirms: nat, head: nat, reorg: bool): Indexer
    requires size > 0
  {
    if reorg then
      var sections := Complete(head + 1, size);
      Cut(s, Min(s.stored, sections)).(known := Min(s.known, sections), cascaded := Min(s.cascaded, sections * size))
    else s.(known := Max(s.known, if head >= confirms then Complete(head + 1 - confirms, size) else 0))
  }

  ghost function Begun(s: Indexer, size: nat, canon: Canon): Indexer
    requires size > 0
  {
    if s.known <= s.stored then s
    else
      var t := Checked(s, size, canon);
      t.(phase := Processing(t.stored, t.Last(), 0, t.Last()))
  }

  /** A block is taken if it is canonical, stored and the child of the last one, and the backend takes it. */
  ghost function BlockRead(s: Indexer, size: nat, canon: Canon, blocks: set<Block>, processed: bool): Indexer
    requires size > 0 && s.phase.Processing?
  {
    var p := s.phase;
    var number := p.section * size + p.done;
    var hash := ReadCanonical(canon, number);
    var header := GetBlock(blocks, hash, number);
    if header.Some? && header.value.parent == p.last && processed then
      s.(phase := p.(done := p.done + 1, last := hash))
    else Failed(s, size, canon)
  }

  /** A section read to its end is stored if it is committed and none before it was taken back. */
  ghost function SectionDone(s: Indexer, size: nat, canon: Canon, committed: bool): Indexer
    requires size > 0 && s.phase.Processing?
  {
    if committed && s.stored == s.phase.section then
      s.(stored := s.stored + 1, heads := s.heads[s.stored := s.phase.last], cascaded := SectionEnd(size, s.stored),
         phase := Idle)
    else Failed(s, size, canon)
  }

  /** One step; one that cannot happen in the present phase changes nothing. */
  ghost function Step(size: nat, confirms: nat, s: Indexer, e: Event): Indexer
    requires size > 0
  {
    match e
    case Notice(head, reorg) => Noticed(s, size, confirms, head, reorg)
    case Update(canon) => if s.phase.Idle? then Begun(s, size, canon) else s
    case ResetFails(canon) =>
      if s.phase.Processing? && s.phase.done == 0 then Failed(Cut(s, 0), size, canon) else s
    case Read(canon, blocks, processed) =>
      if s.phase.Processing? && s.phase.done < size then BlockRead(s, size, canon, blocks, processed) else s
    case Finish(canon, committed) =>
      if s.phase.Processing? && s.phase.done == size then SectionDone(s, size, canon, committed) else s
    case Ask(canon) => Checked(s, size, canon)
    case Restart => s.(known := 0, cascaded := 0, phase := Idle)
  }

  ghost function Steps(size: nat, confirms: nat, s: Indexer, events: seq<Event>): Indexer
    requires size > 0
  {
    if events == [] then s
    else Step(size, confirms, Steps(size, confirms, s, events[..|events| - 1]), events[|events| - 1])
  }

  /** Only a committed section that none before it was taken back from adds to the stored ones, and just itself. */
  lemma OnlyFinishStores(size: nat, confirms: nat, s: Indexer, e: Event)
    requires size > 0 && Step(size, confirms, s, e).stored > s.stored
    ensures e.Finish? && e.committed && s.phase.Processing? && s.phase.done == size && s.phase.section == s.stored
    ensures Step(size, confirms, s, e).stored == s.stored + 1
  {
  }

  /** The canonical blocks of a section are stored and follow `before`, one the child of the other. */
  ghost predicate Readable(canon: Canon, blocks: set<Block>, size: nat, section: nat, before: Hash) {
    forall k: nat :: k < size ==>
      BlockFollows(canon, blocks, section * size + k, CanonicalBefore(canon, size, section, k, before))
  }

  ghost predicate BlockFollows(canon: Canon, blocks: set<Block>, number: nat, before: Hash) {
    var header := GetBlock(blocks, ReadCanonical(canon, number), number);
    header.Some? && header.value.parent == before
  }

  ghost function CanonicalBefore(canon: Canon, size: nat, section: nat, k: nat, before: Hash): Hash {
    if k == 0 then before else ReadCanonical(canon, section * size + k - 1)
  }

  /** An update and the reads that follow it, all over one canonical index. */
  function Attempt(canon: Canon, blocks: set<Block>, count: nat): seq<Event> {
    if count == 0 then [Update(canon)] else Attempt(canon, blocks, count - 1) + [Read(canon, blocks, true)]
  }

  lemma {:induction false} ReadsThrough(size: nat, confirms: nat, s: Indexer, canon: Canon, blocks: set<Block>, k: nat)
    requires size > 0 && k <= size && s.phase.Idle? && s.known > s.stored
    requires var t := Checked(s, size, canon); Readable(canon, blocks, size, t.stored, t.Last())
    ensures var t := Checked(s, size, canon);
      Steps(size, confirms, s, Attempt(canon, blocks, k))
        == t.(phase := Processing(t.stored, t.Last(), k, CanonicalBefore(canon, size, t.stored, k, t.Last())))
  {
    hide Step, Steps, Checked, BlockFollows, Readable, CanonicalBefore;
    var t := Checked(s, size, canon);
    if k == 0 {
      StepsOne(size, confirms, s, [], Update(canon));
      TakesUp(size, confirms, s, canon);
      FollowsAt(canon, blocks, size, t.stored, t.Last(), 0);
    } else {
      var events := Attempt(canon, blocks, k - 1);
      ReadsThrough(size, confirms, s, canon, blocks, k - 1);
      StepsOne(size, confirms, s, events, Read(canon, blocks, true));
      FollowsAt(canon, blocks, size, t.stored, t.Last(), k - 1);
      ReadsNext(size, confirms, Steps(size, confirms, s, events), canon, blocks);
    }
  }

  lemma StepsOne(size: nat, confirms: nat, s: Indexer, events: seq<Event>, e: Event)
    requires size > 0
    ensures Steps(size, confirms, s, events + [e]) == Step(size, confirms, Steps(size, confirms, s, events), e)
    ensures Steps(size, confirms, s, []) == s && [] + [e] == [e]
  {
    assert (events + [e])[..|events|] == events;
  }

  lemma FollowsAt(canon: Canon, blocks: set<Block>, size: nat, section: nat, before: Hash, k: nat)
    requires Readable(canon, blocks, size, section, before) && k < size
    ensures BlockFollows(canon, blocks, section * size + k, CanonicalBefore(canon, size, section, k, before))
    ensures CanonicalBefore(canon, size, section, 0, before) == before
    ensures CanonicalBefore(canon, size, section, k + 1, before) == ReadCanonical(canon, section * size + k)
  {
  }

  lemma TakesUp(size: nat, confirms: nat, s: Indexer, canon: Canon)
    requires size > 0 && s.phase.Idle? && s.known > s.stored
    ensures var t := Checked(s, size, canon);
      Step(size, confirms, s, Update(canon)) == t.(phase := Processing(t.stored, t.Last(), 0, t.Last()))
  {
  }

  lemma ReadsNext(size: nat, confirms: nat, s: Indexer, canon: Canon, blocks: set<Block>)
    requires size > 0 && s.phase.Processing? && s.phase.done < size
    requires BlockFollows(canon, blocks, s.phase.section * size + s.phase.done, s.phase.last)
    ensures var p := s.phase;
      Step(size, confirms, s, Read(canon, blocks, true))
        == s.(phase := p.(done := p.done + 1, last := ReadCanonical(canon, p.section * size + p.done)))
  {
    hide Failed;
  }

  /**
   Undisturbed, an update that finds a known section after its last canonical
   one reads it through and stores it with its canonical head.
   */
  lemma StoresUndisturbed(size: nat, confirms: nat, s: Indexer, canon: Canon, blocks: set<Block>)
    requires size > 0 && s.phase.Idle? && s.known > s.stored
    requires var t := Checked(s, size, canon); Readable(canon, blocks, size, t.stored, t.Last())
    ensures var t := Checked(s, size, canon);
      var r := Steps(size, confirms, s, Attempt(canon, blocks, size) + [Finish(canon, true)]);
      && r.stored == t.stored + 1 && r.phase.Idle?
      && r.heads == t.heads[t.stored := ReadCanonical(canon, (t.stored + 1) * size - 1)]
  {
    hide Steps, Checked, Readable;
    ReadsThrough(size, confirms, s, canon, blocks, size);
    StepsOne(size, confirms, s, Attempt(canon, blocks, size), Finish(canon, true));
  }

  /** How many sections the backend committed. */
  ghost function Commits(events: seq<Event>): nat {
    if events == [] then 0
    else
      var e := events[|events| - 1];
      Commits(events[..|events| - 1]) + if e.Finish? && e.committed then 1 else 0
  }

  /** Over a whole run, whatever is taken back in between, no section is added without a commit of its own. */
  lemma {:induction false} StoredByCommits(size: nat, confirms: nat, s: Indexer, events: seq<Event>)
    requires size > 0
    ensures Steps(size, confirms, s, events).stored <= s.stored + Commits(events)
  {
    if events != [] {
      var front, e := events[..|events| - 1], events[|events| - 1];
      StoredByCommits(size, confirms, s, front);
      var t := Steps(size, confirms, s, front);
      if Step(size, confirms, t, e).stored > t.stored {
        OnlyFinishStores(size, confirms, t, e);
      }
    }
  }

  class ChainIndexer {
    const size: nat
    const confirms: nat

    var storedSections: nat
    var knownSections: nat
    var cascadedHead: nat
    var heads: map<nat, Hash>
    var count: nat
    var phase: Phase

    ghost predicate Valid()
      reads this
    {
      && size > 0 && OneChain(heads, size, storedSections) && count == storedSections
      && Reading(phase, size, storedSections, heads)
    }

    ghost function View(): Indexer
      reads this
    {
      Indexer(storedSections, knownSections, cascadedHead, heads, phase)
    }

    constructor (size: nat, confirms: nat)
      requires size > 0
      ensures Valid() && View() == Indexer(0, 0, 0, map[], Idle)
      ensures this.size == size && this.confirms == confirms
    {
      this.size, this.confirms := size, confirms;
      storedSections, knownSections, cascadedHead, heads, count, phase := 0, 0, 0, map[], 0, Idle;
    }

    function SectionHead(k: int): Hash
      reads this
    {
      if k >= 0 && k in heads then heads[k] else ZERO
    }

    /** `setValidSections`, going down. */
    method SetValidSections(sections: nat)
      requires size > 0 && OneChain(heads, size, storedSections) && sections <= storedSections
      modifies this`storedSections, this`heads, this`count
      ensures storedSections == count == sections && heads == FirstHeads(old(heads), sections)
      ensures OneChain(heads, size, storedSections)
    {
      hide OneChain;
      OneChainPrefix(heads, size, storedSections, sections);
      ghost var was := heads;
      FirstHeadsAll(heads, size, storedSections);
      count := sections;
      while storedSections > sections
        invariant sections <= storedSections && heads == FirstHeads(was, storedSections) && count == sections
      {
        storedSections := storedSections - 1;
        heads := heads - {storedSections};
      }
      storedSections := sections;
    }

    /** `verifyLastHead`: the sections whose heads are canonical stay, as long as the last one is. */
    method VerifyLastHead(canon: Canon)
      requires size > 0 && OneChain(heads, size, storedSections) && count == storedSections
      modifies this`storedSections, this`heads, this`count
      ensures OneChain(heads, size, storedSections) && count == storedSections <= old(storedSections)
      ensures View() == Checked(old(View()), size, canon)
      ensures storedSections > 0 ==> SectionIsCanonical(heads, size, canon, storedSections - 1)
      ensures ParentLinked(canon) ==>
        forall k: nat :: k < old(storedSections) ==>
          (k < storedSections <==> SectionIsCanonical(old(heads), size, canon, k))
    {
      hide OneChain, ParentLinked;
      ghost var was, all := heads, storedSections;
      FirstHeadsAll(heads, size, storedSections);
      while storedSections > 0
        invariant OneChain(heads, size, storedSections) && count == storedSections <= all
        invariant heads == FirstHeads(was, storedSections)
        invariant forall k: nat :: storedSections <= k < all ==> !SectionIsCanonical(was, size, canon, k)
        invariant Verified(was, size, canon, storedSections) == Verified(was, size, canon, all)
        decreases storedSections
      {
        HeadIsThere(heads, size, storedSections);
        ghost var last := storedSections - 1;
        if SectionHead(storedSections - 1) == ReadCanonical(canon, storedSections * size - 1) {
          if ParentLinked(canon) {
            AllCanonical(was, size, all, canon, last);
          }
          return;
        }
        assert !SectionIsCanonical(was, size, canon, last);
        FirstHeadsTwice(was, storedSections, last);
        SetValidSections(storedSections - 1);
      }
    }

    /** `newHead`.  After a reorg notice the stored sections end at or below the head. */
    method NewHead(head: nat, reorg: bool)
      requires Valid()
      modifies this
      ensures Valid() && View() == Noticed(old(View()), size, confirms, head, reorg)
      ensures reorg ==> storedSections * size <= head + 1
    {
      hide OneChain, Complete;
      if reorg {
        var known := Complete(head + 1, size);
        if known < knownSections {
          knownSections := known;
        }
        FirstHeadsAll(heads, size, storedSections);
        if known < storedSections {
          SetValidSections(known);
        } else {
          FewerSections(storedSections, known, size);
        }
        if known * size < cascadedHead {
          cascadedHead := known * size;
        }
        return;
      }
      if head >= confirms {
        var sections := Complete(head + 1 - confirms, size);
        if sections > knownSections {
          knownSections := sections;
        }
      }
    }

    /** The update loop takes up a section, under the lock, and lets the lock go. */
    method Begin(canon: Canon)
      requires Valid() && phase.Idle?
      modifies this
      ensures Valid() && View() == Begun(old(View()), size, canon)
      ensures var head := SectionHead(storedSections - 1);
        if old(knownSections <= storedSections) then phase == old(phase) && storedSections == old(storedSections)
        else phase == Processing(storedSections, head, 0, head)
      ensures phase.Processing? && storedSections > 0 ==> SectionIsCanonical(heads, size, canon, storedSections - 1)
    {
      hide OneChain;
      if knownSections <= storedSections {
        return;
      }
      VerifyLastHead(canon);
      var section := storedSections;
      var oldHead := if section > 0 then SectionHead(section - 1) else ZERO;
      if section > 0 {
        HeadIsThere(heads, size, storedSections);
      }
      phase := Processing(section, oldHead, 0, oldHead);
    }

    /** Processing failed: nothing is retried until the next notification. */
    method Fail(canon: Canon)
      requires Valid()
      modifies this
      ensures Valid() && View() == Failed(old(View()), size, canon)
    {
      hide OneChain;
      VerifyLastHead(canon);
      knownSections := storedSections;
      phase := Idle;
    }

    /** The backend refuses to reset: all sections are given up. */
    method FailReset(canon: Canon)
      requires Valid() && phase.Processing? && phase.done == 0
      modifies this
      ensures Valid() && View() == Failed(Cut(old(View()), 0), size, canon) && phase.Idle? && storedSections == 0
    {
      hide OneChain;
      SetValidSections(0);
      Fail(canon);
    }

    /** One block of the section, read without the lock. */
    method ReadBlock(canon: Canon, blocks: set<Block>, processed: bool)
      requires Valid() && phase.Processing? && phase.done < size
      modifies this
      ensures Valid() && View() == BlockRead(old(View()), size, canon, blocks, processed)
      ensures phase.Processing? ==>
        && phase == old(phase).(done := old(phase.done) + 1, last := phase.last)
        && storedSections == old(storedSections) && heads == old(heads)
        && processed && phase.last.Digest? && phase.last.block in blocks && phase.last.block.parent == old(phase.last)
        && phase.last == ReadCanonical(canon, old(phase.section) * size + old(phase.done))
      ensures phase.Idle? ==> knownSections == storedSections
    {
      hide OneChain, Reading;
      var number := phase.section * size + phase.done;
      var hash := ReadCanonical(canon, number);
      var header := if hash == ZERO then None else GetBlock(blocks, hash, number);
      if header == None || header.value.parent != phase.last || !processed {
        Fail(canon);
        return;
      }
      ReadsOne(phase, size, storedSections, heads, header.value);
      phase := phase.(done := phase.done + 1, last := hash);
    }

    /** The section is complete: under the lock again, it is stored unless a reorg took the one before it. */
    method FinishSection(canon: Canon, committed: bool)
      requires Valid() && phase.Processing? && phase.done == size
      modifies this
      ensures Valid() && phase.Idle? && View() == SectionDone(old(View()), size, canon, committed)
      ensures committed && old(storedSections) == old(phase).section ==>
        storedSections == old(storedSections) + 1 && heads == old(heads)[old(storedSections) := old(phase).last]
      ensures !committed || old(storedSections) != old(phase).section ==>
        storedSections <= old(storedSections) && knownSections == storedSections
    {
      hide OneChain;
      var section := phase.section;
      LowerHeadsOnly(heads, size, storedSections);
      if committed && (section == 0 || phase.oldHead == SectionHead(section - 1)) {
        SectionFinished(heads, phase, size, storedSections);
        heads := heads[section := phase.last];
        count := section + 1;
        storedSections := section + 1;
        cascadedHead := SectionEnd(size, section);
        phase := Idle;
      } else {
        Fail(canon);
      }
    }

    /** `Sections`: with a parent-linked index every section reported is canonical, and no canonical one is lost. */
    method Sections(canon: Canon) returns (sections: nat, head: Hash)
      requires Valid()
      modifies this
      ensures Valid() && sections == storedSections <= old(storedSections) && head == SectionHead(sections - 1)
      ensures View() == Checked(old(View()), size, canon)
      ensures ParentLinked(canon) ==>
        forall k: nat :: k < old(storedSections) ==> (k < sections <==> SectionIsCanonical(old(heads), size, canon, k))
    {
      hide OneChain;
      VerifyLastHead(canon);
      sections, head := storedSections, SectionHead(storedSections - 1);
    }

    /** `loadValidSections`: after a restart the section count is that of the database. */
    method LoadValidSections()
      modifies this`storedSections
      ensures storedSections == count
    {
      storedSections := count;
    }

    /** A restart forgets everything but the database, from which the stored sections are read back. */
    method StartAgain()
      requires Valid()
      modifies this
      ensures Valid() && phase.Idle? && storedSections == old(storedSections) && heads == old(heads)
      ensures View() == old(View()).(known := 0, cascaded := 0, phase := Idle)
    {
      hide OneChain;
      storedSections, knownSections, cascadedHead, phase := 0, 0, 0, Idle;
      LoadValidSections();
    }

    /** Any interleaving of the steps is a run of the step machine, and the heads stay on one chain. */
    method Interleave(events: seq<Event>)
      requires Valid()
      modifies this
      ensures Valid() && View() == Steps(size, confirms, old(View()), events)
    {
      hide OneChain, Reading, Noticed, Begun, Failed, BlockRead, SectionDone, Checked, Cut;
      for i := 0 to |events|
        invariant Valid() && View() == Steps(size, confirms, old(View()), events[..i])
      {
        assert events[..i + 1][..i] == events[..i];
        match events[i] {
          case Notice(head, reorg) => NewHead(head, reorg);
          case Update(canon) =>
            if phase.Idle? {
              Begin(canon);
            }
          case ResetFails(canon) =>
            if phase.Processing? && phase.done == 0 {
              FailReset(canon);
            }
          case Read(canon, blocks, processed) =>
            if phase.Processing? && phase.done < size {
              ReadBlock(canon, blocks, processed);
            }
          case Finish(canon, committed) =>
            if phase.Processing? && phase.done == size {
              FinishSection(canon, committed);
            }
          case Ask(canon) =>
            var sections, head := Sections(canon);
          case Restart => StartAgain();
        }
      }
      assert events[..|events|] == events;
    }
  }

  lemma FewerSections(a: nat, b: nat, size: nat)
    ensures a <= b ==> a * size <= b * size
  {
  }

  /** A finished section follows the head of the one before it. */
  lemma SectionFinished(heads: map<nat, Hash>, p: Phase, size: nat, stored: nat)
    requires size > 0 && OneChain(heads, size, stored) && p.Processing? && Reading(p, size, stored, heads)
    requires p.done == size
    requires p.section == 0 || (p.section - 1 in heads && heads[p.section - 1] == p.oldHead)
    ensures p.section == stored && OneChain(heads[stored := p.last], size, stored + 1)
  {
    assert p.section * size + size == (p.section + 1) * size;
    OneChainExtends(heads, size, stored, p.last);
  }

  lemma AllCanonical(heads: map<nat, Hash>, size: nat, stored: nat, canon: Canon, k: nat)
    requires size > 0 && OneChain(heads, size, stored) && ParentLinked(canon) && k < stored
    requires SectionIsCanonical(heads, size, canon, k)
    ensures forall j: nat :: j <= k ==> SectionIsCanonical(heads, size, canon, j)
  {
    forall j: nat | j <= k ensures SectionIsCanonical(heads, size, canon, j) {
      OneComparisonSuffices(heads, size, stored, canon, j, k);
    }
  }

  lemma FirstHeadsAll(heads: map<nat, Hash>, size: nat, stored: nat)
    requires size > 0 && OneChain(heads, size, stored)
    ensures FirstHeads(heads, stored) == heads
  {
  }

  lemma FirstHeadsTwice(heads: map<nat, Hash>, n: nat, m: nat)
    requires m <= n
    ensures FirstHeads(FirstHeads(heads, n), m) == FirstHeads(heads, m)
  {
  }

  lemma LowerHeadsOnly(heads: map<nat, Hash>, size: nat, stored: nat)
    requires size > 0 && OneChain(heads, size, stored)
    ensures forall k: nat :: k in heads ==> k < stored
  {
  }

  lemma HeadIsThere(heads: map<nat, Hash>, size: nat, stored: nat)
    requires size > 0 && OneChain(heads, size, stored) && stored > 0
    ensures stored - 1 in heads && heads[stored - 1].Digest?
  {
    assert HeadAt(heads, size, stored - 1);
  }
}
