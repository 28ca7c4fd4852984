/**
 `event.Feed`: one-to-many delivery by selecting over a list of channels that
 is permuted and shrunk in place.  `cases` is a prefix of the shared list
 `sendCases`: a channel that has got the value is swapped behind the prefix,
 and unsubscribing deletes from the list while a send is going on.
 */
module Feeds {

  type Channel = nat

  /** The case in slot 0, on which a running `Send` receives unsubscribed channels. */
  const REMOVE_SUB: Channel := 0

  /** What a blocked `Send` wakes up for, and what subscribers do meanwhile. */
  datatype Wake =
    | Accepts(pick: nat)
    | Unsubscribes(ch: Channel)
    | Subscribes(ch: Channel)

  /** How far a `Send` comes: it returns, waits for a receiver, or panics over a channel it does not have. */
  datatype Outcome = Returned | Waiting | Panicked

  function IndexOf(s: seq<Channel>, ch: Channel): (i: int)
    ensures -1 <= i < |s|
    ensures i >= 0 ==> s[i] == ch && ch !in s[..i]
    ensures i == -1 <==> ch !in s
  {
    if s == [] then -1
    else if s[0] == ch then 0
    else
      var i := IndexOf(s[1..], ch);
      assert i >= 0 ==> s[..i + 1] == [s[0]] + s[1..][..i];
      if i < 0 then -1 else i + 1
  }

  function Without(s: seq<Channel>, k: nat): (r: seq<Channel>)
    requires k < |s|
    ensures multiset(s) == multiset(r) + multiset{s[k]}
  {
    assert s == s[..k] + [s[k]] + s[k + 1..];
    s[..k] + s[k + 1..]
  }

  lemma WithoutAt(s: seq<Channel>, k: nat)
    requires k < |s|
    ensures |Without(s, k)| == |s| - 1
    ensures forall i :: 0 <= i < |s| - 1 ==> Without(s, k)[i] == if i < k then s[i] else s[i + 1]
  {
  }

  function Swapped(s: seq<Channel>, i: nat, j: nat): seq<Channel>
    requires i < |s| && j < |s|
  {
    s[i := s[j]][j := s[i]]
  }

  /** Swapping an active case with the last active one moves it from the active to the inactive ones. */
  lemma Deactivated(s: seq<Channel>, i: nat, m: nat)
    requires 1 <= i < m <= |s|
    ensures var r := Swapped(s, i, m - 1);
      && r[0] == s[0]
      && multiset(s[1..m]) == multiset(r[1..m - 1]) + multiset{s[i]}
      && multiset(r[m - 1..]) == multiset(s[m..]) + multiset{s[i]}
  {
    hide Swapped;
    SwapSlice(s, i, m);
    SwapTail(s, i, m);
    SwapKeeps(s[1..m], i - 1, m - 2);
  }

  lemma SwapSlice(s: seq<Channel>, i: nat, m: nat)
    requires 1 <= i < m <= |s|
    ensures |Swapped(s, i, m - 1)| == |s| && Swapped(s[1..m], i - 1, m - 2) == Swapped(s, i, m - 1)[1..m - 1] + [s[i]]
  {
  }

  lemma SwapTail(s: seq<Channel>, i: nat, m: nat)
    requires 1 <= i < m <= |s|
    ensures |Swapped(s, i, m - 1)| == |s| && Swapped(s, i, m - 1)[0] == s[0]
    ensures Swapped(s, i, m - 1)[m - 1..] == [s[i]] + s[m..]
  {
  }

  lemma SwapKeeps(s: seq<Channel>, i: nat, j: nat)
    requires i < |s| && j < |s|
    ensures multiset(Swapped(s, i, j)) == multiset(s)
  {
  }

  /** Deleting an active case shortens the prefix, deleting another one the rest. */
  lemma Deleted(s: seq<Channel>, k: nat, m: nat)
    requires 1 <= k < |s| && 1 <= m <= |s|
    ensures var r := Without(s, k);
      && r[0] == s[0]
      && (k < m ==> multiset(s[1..m]) == multiset(r[1..m - 1]) + multiset{s[k]} && r[m - 1..] == s[m..])
      && (k >= m ==> r[1..m] == s[1..m] && multiset(s[m..]) == multiset(r[m..]) + multiset{s[k]})
  {
    if k < m {
      DeletedBefore(s, k, m);
    } else {
      DeletedAfter(s, k, m);
    }
  }

  lemma DeletedBefore(s: seq<Channel>, k: nat, m: nat)
    requires 1 <= k < m <= |s|
    ensures var r := Without(s, k);
      multiset(s[1..m]) == multiset(r[1..m - 1]) + multiset{s[k]} && r[m - 1..] == s[m..]
  {
    var r := Without(s, k);
    var a, b := s[1..k], s[k + 1..m];
    assert s[1..m] == a + [s[k]] + b;
    assert r[1..m - 1] == a + b;
    assert r[m - 1..] == s[m..];
  }

  lemma DeletedAfter(s: seq<Channel>, k: nat, m: nat)
    requires 1 <= m <= k < |s|
    ensures var r := Without(s, k);
      r[1..m] == s[1..m] && multiset(s[m..]) == multiset(r[m..]) + multiset{s[k]}
  {
    var r := Without(s, k);
    var a, b := s[m..k], s[k + 1..];
    assert s[m..] == a + [s[k]] + b;
    assert r[m..] == a + b;
    assert r[1..m] == s[1..m];
  }

  /** The case in slot 0 is the removal case, and no other one is. */
  ghost predicate WellFormed(s: seq<Channel>) {
    s != [] && s[0] == REMOVE_SUB && REMOVE_SUB !in s[1..]
  }

  /** A search over all cases finds a channel exactly if it is behind the removal case. */
  lemma Searched(s: seq<Channel>, ch: Channel)
    requires s != [] && s[0] != ch
    ensures IndexOf(s, ch) == -1 <==> ch !in s[1..]
    ensures ch !in s[1..] ==> multiset(s[1..]) - multiset{ch} == multiset(s[1..])
  {
    assert s == [s[0]] + s[1..];
  }

  /** A subscribed channel is found behind the removal case, and deleting it takes one of it out. */
  lemma CaseFound(s: seq<Channel>, ch: Channel)
    requires WellFormed(s) && ch in s[1..]
    ensures var k := IndexOf(s, ch);
      && 1 <= k && WellFormed(Without(s, k))
      && multiset(Without(s, k)[1..]) == multiset(s[1..]) - multiset{ch}
  {
    assert s == [s[0]] + s[1..];
    var k := IndexOf(s, ch);
    Deleted(s, k, 1);
    assert multiset(Without(s, k)[1..]) <= multiset(s[1..]);
  }

  lemma Removed(s: seq<Channel>, k: nat)
    requires k < |s|
    ensures multiset(Without(s, k)) == multiset(s) - multiset{s[k]} && s[k] in s
  {
  }

  lemma InboxWithout(inbox: seq<Channel>, k: nat)
    requires k < |inbox| && REMOVE_SUB !in inbox
    ensures REMOVE_SUB !in Without(inbox, k)
    ensures multiset(Without(inbox, k)) == multiset(inbox) - multiset{inbox[k]}
  {
  }

  /**
   How a send stands.  Every channel that was subscribed is still active, has
   got the value, or left before it could; those behind the prefix have got the
   value and stayed.
   */
  ghost predicate Accounted(s: seq<Channel>, m: nat, subscribed: multiset<Channel>, delivered: multiset<Channel>,
                            leftUnsent: multiset<Channel>, leftSent: multiset<Channel>) {
    && 1 <= m <= |s| && s[0] == REMOVE_SUB
    && multiset(s[1..m]) + delivered + leftUnsent == subscribed
    && multiset(s[m..]) + leftSent == delivered
  }

  lemma Delivers(s: seq<Channel>, i: nat, m: nat, subscribed: multiset<Channel>, delivered: multiset<Channel>,
                 leftUnsent: multiset<Channel>, leftSent: multiset<Channel>)
    requires Accounted(s, m, subscribed, delivered, leftUnsent, leftSent) && 1 <= i < m
    ensures Accounted(Swapped(s, i, m - 1), m - 1, subscribed, delivered + multiset{s[i]}, leftUnsent, leftSent)
  {
    Deactivated(s, i, m);
  }

  lemma Leaves(s: seq<Channel>, k: nat, m: nat, subscribed: multiset<Channel>, delivered: multiset<Channel>,
               leftUnsent: multiset<Channel>, leftSent: multiset<Channel>)
    requires Accounted(s, m, subscribed, delivered, leftUnsent, leftSent) && 1 <= k < |s|
    ensures k < m ==> Accounted(Without(s, k), m - 1, subscribed, delivered, leftUnsent + multiset{s[k]}, leftSent)
    ensures k >= m ==> Accounted(Without(s, k), m, subscribed, delivered, leftUnsent, leftSent + multiset{s[k]})
  {
    Deleted(s, k, m);
  }

  /**
   What a finished send has done: every channel got the value or left before it
   could, a channel subscribed once got it once, and the list holds those that stayed.
   */
  ghost predicate SentOnce(s: seq<Channel>, subscribed: multiset<Channel>, delivered: multiset<Channel>,
                           leftUnsent: multiset<Channel>, leftSent: multiset<Channel>) {
    && s != [] && delivered + leftUnsent == subscribed && leftSent <= delivered
    && multiset(s[1..]) == subscribed - leftUnsent - leftSent
    && forall ch :: subscribed[ch] == 1 ==> delivered[ch] + leftUnsent[ch] == 1
  }

  lemma SentToAll(s: seq<Channel>, subscribed: multiset<Channel>, delivered: multiset<Channel>,
                  leftUnsent: multiset<Channel>, leftSent: multiset<Channel>)
    requires Accounted(s, 1, subscribed, delivered, leftUnsent, leftSent)
    ensures SentOnce(s, subscribed, delivered, leftUnsent, leftSent)
  {
    assert s[1..1] == [];
  }

  class Feed {
    var cases: array<Channel>
    var len: nat
    var inbox: seq<Channel>

    /** The list `sendCases`: its backing array up to its length. */
    ghost function SendCases(): (s: seq<Channel>)
      requires len <= cases.Length
      reads this`cases, this`len, cases
      ensures |s| == len
    {
      cases[..len]
    }

    ghost predicate Valid()
      reads this, cases
    {
      1 <= len <= cases.Length && WellFormed(SendCases()) && REMOVE_SUB !in inbox
    }

    /** The channels in the list and the inbox, the removal case aside. */
    ghost function Here(): multiset<Channel>
      requires 1 <= len <= cases.Length
      reads this, cases
    {
      multiset(SendCases()[1..]) + multiset(inbox)
    }

    constructor ()
      ensures Valid() && Here() == multiset{} && fresh(cases)
    {
      cases := new Channel[1](_ => REMOVE_SUB);
      len, inbox := 1, [];
      new;
      assert SendCases() == [REMOVE_SUB];
    }

    method Subscribe(ch: Channel)
      requires Valid() && ch != REMOVE_SUB
      modifies this`inbox
      ensures Valid() && inbox == old(inbox) + [ch] && Here() == old(Here()) + multiset{ch}
    {
      inbox := inbox + [ch];
    }

    /** `caseList.find` over the whole list. */
    method Find(ch: Channel) returns (k: int)
      requires len <= cases.Length
      ensures k == IndexOf(SendCases(), ch)
    {
      k := IndexOf(cases[..len], ch);
    }

    /** `caseList.delete` on the shared array. */
    method DeleteCase(k: nat)
      requires len <= cases.Length && k < len
      modifies this`len, cases
      ensures len == old(len) - 1 && SendCases() == Without(old(SendCases()), k)
    {
      hide Without;
      var s := cases[..len];
      forall i | k <= i < len - 1 {
        cases[i] := s[i + 1];
      }
      len := len - 1;
      WithoutAt(s, k);
      assert forall i :: 0 <= i < len ==> cases[i] == Without(s, k)[i];
    }

    /** `caseList.deactivate`: swaps a case to the end of a prefix of the list. */
    method Deactivate(i: nat, m: nat)
      requires i < m <= len <= cases.Length
      modifies cases
      ensures SendCases() == Swapped(old(SendCases()), i, m - 1)
    {
      cases[i], cases[m - 1] := cases[m - 1], cases[i];
    }

    /** `remove`, when no send is going on.  It panics exactly when the channel is not subscribed. */
    method Remove(ch: Channel) returns (panics: bool)
      requires Valid() && ch != REMOVE_SUB
      modifies this, cases
      ensures Valid() && cases == old(cases) && (panics <==> ch !in old(Here()))
      ensures Here() == old(Here()) - multiset{ch}
    {
      hide Without, IndexOf;
      OneGone(multiset(SendCases()[1..]), multiset(inbox), ch);
      var k := IndexOf(inbox, ch);
      if k != -1 {
        RemoveFromInbox(k);
        return false;
      }
      panics := RemoveCase(ch);
    }

    method RemoveFromInbox(k: nat)
      requires REMOVE_SUB !in inbox && k < |inbox|
      modifies this`inbox
      ensures REMOVE_SUB !in inbox && multiset(inbox) == multiset(old(inbox)) - multiset{old(inbox)[k]}
    {
      InboxWithout(inbox, k);
      inbox := Without(inbox, k);
    }

    method RemoveCase(ch: Channel) returns (panics: bool)
      requires Valid() && ch != REMOVE_SUB
      modifies this`len, cases
      ensures Valid() && multiset(SendCases()[1..]) == multiset(old(SendCases())[1..]) - multiset{ch}
      ensures panics <==> ch !in old(SendCases()[1..])
    {
      hide Without, IndexOf;
      var k := Find(ch);
      ghost var s := SendCases();
      Searched(s, ch);
      if k == -1 {
        return true;
      }
      CaseFound(s, ch);
      DeleteCase(k);
      panics := false;
    }

    /** Takes the newly subscribed channels over from the inbox. */
    method TakeInbox()
      requires Valid()
      modifies this
      ensures Valid() && fresh(cases) && inbox == [] && SendCases() == old(SendCases()) + old(inbox)
      ensures Here() == old(Here()) == multiset(SendCases()[1..])
    {
      var all := cases[..len] + inbox;
      var next := new Channel[|all|](i requires 0 <= i < |all| => all[i]);
      ghost var s := SendCases();
      cases, len, inbox := next, |all|, [];
      assert SendCases() == all && all[1..] == s[1..] + old(inbox);
    }

    /** The fast path: offers the value to every active channel; any of them may take it. */
    method TrySendAll(m0: nat, ghost subscribed: multiset<Channel>, ghost delivered0: multiset<Channel>,
                      ghost leftUnsent: multiset<Channel>, ghost leftSent: multiset<Channel>)
      returns (m: nat, sent: nat, ghost delivered: multiset<Channel>)
      requires 1 <= len <= cases.Length && Accounted(SendCases(), m0, subscribed, delivered0, leftUnsent, leftSent)
      modifies cases
      ensures Here() == old(Here())
      ensures 1 <= m <= m0 && Accounted(SendCases(), m, subscribed, delivered, leftUnsent, leftSent)
      ensures |delivered| == |delivered0| + sent
    {
      hide Accounted, Swapped, Left;
      m, sent, delivered := m0, 0, delivered0;
      var i := 1;
      PrefixFits(SendCases(), m, subscribed, delivered, leftUnsent, leftSent);
      Staying(SendCases(), m, subscribed, delivered, leftUnsent, leftSent);
      while i < m
        invariant 1 <= i && 1 <= m <= m0 <= len <= cases.Length
        invariant Accounted(SendCases(), m, subscribed, delivered, leftUnsent, leftSent)
        invariant |delivered| == |delivered0| + sent
        decreases m - i
      {
        var taken: bool := *;
        if taken {
          ghost var ch := cases[i];
          Delivers(SendCases(), i, m, subscribed, delivered, leftUnsent, leftSent);
          Deactivate(i, m);
          m, sent := m - 1, sent + 1;
          delivered := delivered + multiset{ch};
        } else {
          i := i + 1;
        }
      }
      Staying(SendCases(), m, subscribed, delivered, leftUnsent, leftSent);
    }

    /** A running `Send` takes a channel out of the list. */
    method TakeOut(ch: Channel, m0: nat, ghost subscribed: multiset<Channel>, ghost delivered: multiset<Channel>,
                   ghost leftUnsent0: multiset<Channel>, ghost leftSent0: multiset<Channel>)
      returns (m: nat, panics: bool, ghost leftUnsent: multiset<Channel>, ghost leftSent: multiset<Channel>)
      requires 1 < m0 <= len <= cases.Length && ch != REMOVE_SUB
      requires Accounted(SendCases(), m0, subscribed, delivered, leftUnsent0, leftSent0)
      modifies this`len, cases
      ensures 1 <= m <= len <= cases.Length && Accounted(SendCases(), m, subscribed, delivered, leftUnsent, leftSent)
      ensures panics <==> ch !in old(SendCases()[1..])
      ensures multiset(SendCases()[1..]) == old(multiset(SendCases()[1..])) - multiset{ch}
    {
      hide Accounted, Without, IndexOf, Left, Feed.SendCases;
      m, panics, leftUnsent, leftSent := m0, false, leftUnsent0, leftSent0;
      Staying(SendCases(), m, subscribed, delivered, leftUnsent, leftSent);
      var k := Find(ch);
      Searched(SendCases(), ch);
      if k == -1 {
        return m, true, leftUnsent, leftSent;
      }
      OneLess(subscribed, leftUnsent, leftSent, ch);
      Leaves(SendCases(), k, m, subscribed, delivered, leftUnsent, leftSent);
      DeleteCase(k);
      if k < m {
        m, leftUnsent := m - 1, leftUnsent + multiset{ch};
      } else {
        leftSent := leftSent + multiset{ch};
      }
      PrefixFits(SendCases(), m, subscribed, delivered, leftUnsent, leftSent);
      Staying(SendCases(), m, subscribed, delivered, leftUnsent, leftSent);
    }

    /** A running `Send` gives the value to one of the channels that wait for it. */
    method Give(pick: nat, m0: nat, ghost subscribed: multiset<Channel>, ghost delivered0: multiset<Channel>,
                ghost leftUnsent: multiset<Channel>, ghost leftSent: multiset<Channel>)
      returns (m: nat, ghost delivered: multiset<Channel>)
      requires 1 < m0 <= len <= cases.Length
      requires Accounted(SendCases(), m0, subscribed, delivered0, leftUnsent, leftSent)
      modifies cases
      ensures m == m0 - 1 && Accounted(SendCases(), m, subscribed, delivered, leftUnsent, leftSent)
      ensures |delivered| == |delivered0| + 1 && Here() == old(Here())
    {
      hide Accounted, Swapped, Left;
      var chosen := 1 + pick % (m0 - 1);
      ghost var ch := cases[chosen];
      Staying(SendCases(), m0, subscribed, delivered0, leftUnsent, leftSent);
      Delivers(SendCases(), chosen, m0, subscribed, delivered0, leftUnsent, leftSent);
      Deactivate(chosen, m0);
      m, delivered := m0 - 1, delivered0 + multiset{ch};
      Staying(SendCases(), m, subscribed, delivered, leftUnsent, leftSent);
    }

    /** A channel unsubscribes while a `Send` is running. */
    method LetGo(ch: Channel, m0: nat, ghost subscribed: multiset<Channel>, ghost delivered: multiset<Channel>,
                 ghost leftUnsent0: multiset<Channel>, ghost leftSent0: multiset<Channel>)
      returns (m: nat, panics: bool, ghost leftUnsent: multiset<Channel>, ghost leftSent: multiset<Channel>)
      requires 1 < m0 <= len <= cases.Length && ch != REMOVE_SUB
      requires Accounted(SendCases(), m0, subscribed, delivered, leftUnsent0, leftSent0)
      modifies this`len, this`inbox, cases
      ensures 1 <= m <= len <= cases.Length && Accounted(SendCases(), m, subscribed, delivered, leftUnsent, leftSent)
      ensures inbox == InboxStep(old(inbox), Unsubscribes(ch))
      ensures panics <==> ch !in old(Here())
      ensures Here() == old(Here()) - multiset{ch} && (panics ==> inbox == old(inbox) && Here() == old(Here()))
    {
      hide Accounted, Without, IndexOf, InboxStep, Feed.SendCases;
      m, panics, leftUnsent, leftSent := m0, false, leftUnsent0, leftSent0;
      Unsubscribed(SendCases()[1..], inbox, ch);
      var k := IndexOf(inbox, ch);
      if k != -1 {
        inbox := Without(inbox, k);
        return;
      }
      m, panics, leftUnsent, leftSent := TakeOut(ch, m, subscribed, delivered, leftUnsent, leftSent);
    }

    /** One round of the blocking select, with what the subscribers do meanwhile. */
    method WakeUp(wake: Wake, m0: nat, ghost subscribed: multiset<Channel>, ghost delivered0: multiset<Channel>,
                  ghost leftUnsent0: multiset<Channel>, ghost leftSent0: multiset<Channel>)
      returns (m: nat, sent: nat, panics: bool, ghost delivered: multiset<Channel>,
               ghost leftUnsent: multiset<Channel>, ghost leftSent: multiset<Channel>)
      requires 1 < m0 <= len <= cases.Length && (wake.Unsubscribes? ==> wake.ch != REMOVE_SUB)
      requires Accounted(SendCases(), m0, subscribed, delivered0, leftUnsent0, leftSent0)
      modifies this`len, this`inbox, cases
      ensures 1 <= m <= len <= cases.Length && Accounted(SendCases(), m, subscribed, delivered, leftUnsent, leftSent)
      ensures |delivered| == |delivered0| + sent && inbox == InboxStep(old(inbox), wake)
      ensures panics <==> wake.Unsubscribes? && wake.ch !in old(Here())
      ensures if panics then inbox == old(inbox) && Here() == old(Here()) else Here() == HereStep(old(Here()), wake)
    {
      hide Accounted, Without, IndexOf;
      m, sent, panics, delivered, leftUnsent, leftSent := m0, 0, false, delivered0, leftUnsent0, leftSent0;
      match wake {
        case Accepts(pick) =>
          m, delivered := Give(pick, m, subscribed, delivered, leftUnsent, leftSent);
          sent := 1;
        case Subscribes(ch) =>
          inbox := inbox + [ch];
        case Unsubscribes(ch) =>
          m, panics, leftUnsent, leftSent := LetGo(ch, m, subscribed, delivered, leftUnsent, leftSent);
      }
    }

    /** The loop of `Send`, once the inbox is taken over. */
    method Deliver(course: seq<Wake>, ghost subscribed: multiset<Channel>)
      returns (nsent: nat, handled: nat, outcome: Outcome, active: nat, ghost delivered: multiset<Channel>,
               ghost leftUnsent: multiset<Channel>, ghost leftSent: multiset<Channel>)
      requires 1 <= len <= cases.Length && inbox == [] && Here() == subscribed && NoRemoval(course)
      requires Accounted(SendCases(), len, subscribed, multiset{}, multiset{}, multiset{})
      modifies this`len, this`inbox, cases
      ensures nsent == |delivered| && handled <= |course| && 1 <= len <= cases.Length
      ensures Came(course, handled, outcome, subscribed) && inbox == Inbox(course[..handled])
      ensures Here() == Present(course[..handled], subscribed)
      ensures Accounted(SendCases(), active, subscribed, delivered, leftUnsent, leftSent)
      ensures outcome.Returned? ==> active == 1
    {
      hide Accounted, InboxStep, HereStep, Strays, Present, Inbox, Feed.Here, Feed.SendCases;
      NoWakes(course, subscribed);
      active := len;
      nsent, handled, outcome := 0, 0, Waiting;
      delivered, leftUnsent, leftSent := multiset{}, multiset{}, multiset{};
      while true
        invariant 0 <= handled <= |course| && 1 <= active <= len <= cases.Length
        invariant Accounted(SendCases(), active, subscribed, delivered, leftUnsent, leftSent) && nsent == |delivered|
        invariant inbox == Inbox(course[..handled]) && Here() == Present(course[..handled], subscribed)
        invariant forall i :: 0 <= i < handled ==> !Strays(course, i, subscribed)
        decreases |course| - handled
      {
        var sent, panics;
        active, sent, delivered := TrySendAll(active, subscribed, delivered, leftUnsent, leftSent);
        nsent := nsent + sent;
        if active == 1 {
          outcome := Returned;
          break;
        }
        if handled == |course| {
          break;
        }
        NextWake(course, handled, subscribed);
        active, sent, panics, delivered, leftUnsent, leftSent :=
          WakeUp(course[handled], active, subscribed, delivered, leftUnsent, leftSent);
        nsent := nsent + sent;
        if panics {
          outcome := Panicked;
          break;
        }
        handled := handled + 1;
      }
    }

    /**
     `Send`: delivers a value to all subscribed channels while channels come
     and go.  It returns the number of deliveries and how much of the course of
     events it took.  Left waiting for a receiver, it has taken all of it, with
     `active` the end of the prefix; it panics exactly when it comes to a channel
     that unsubscribes without being subscribed.
     */
    method Send(course: seq<Wake>)
      returns (nsent: nat, handled: nat, outcome: Outcome, active: nat, ghost delivered: multiset<Channel>,
               ghost leftUnsent: multiset<Channel>, ghost leftSent: multiset<Channel>)
      requires Valid() && NoRemoval(course)
      modifies this
      ensures Valid() && nsent == |delivered| && handled <= |course|
      ensures Came(course, handled, outcome, old(Here())) && inbox == Inbox(course[..handled])
      ensures Here() == Present(course[..handled], old(Here()))
      ensures Accounted(SendCases(), active, old(Here()), delivered, leftUnsent, leftSent)
      ensures outcome.Returned? ==> active == 1 && SentOnce(SendCases(), old(Here()), delivered, leftUnsent, leftSent)
    {
      hide Accounted, SentOnce, WellFormed, Inbox, Came, Present, Feed.SendCases;
      ghost var subscribed := Here();
      TakeInbox();
      SendStarts(SendCases(), subscribed);
      nsent, handled, outcome, active, delivered, leftUnsent, leftSent := Deliver(course, subscribed);
      if outcome.Returned? {
        SentToAll(SendCases(), subscribed, delivered, leftUnsent, leftSent);
      }
      AccountedIsWellFormed(SendCases(), active, subscribed, delivered, leftUnsent, leftSent);
      InboxIsClean(course[..handled]);
    }
  }

  /** No subscriber has the removal case for its channel. */
  ghost predicate NoRemoval(course: seq<Wake>) {
    forall i :: 0 <= i < |course| && !course[i].Accepts? ==> course[i].ch != REMOVE_SUB
  }

  ghost function HereStep(here: multiset<Channel>, wake: Wake): multiset<Channel> {
    match wake
    case Accepts(_) => here
    case Subscribes(ch) => here + multiset{ch}
    case Unsubscribes(ch) => here - multiset{ch}
  }

  /** The channels subscribed after a course of events. */
  ghost function Present(course: seq<Wake>, subscribed: multiset<Channel>): multiset<Channel> {
    if course == [] then subscribed else HereStep(Present(course[..|course| - 1], subscribed), course[|course| - 1])
  }

  /** An event unsubscribes a channel that is not subscribed then. */
  ghost predicate Strays(course: seq<Wake>, i: nat, subscribed: multiset<Channel>)
    requires i < |course|
  {
    course[i].Unsubscribes? && course[i].ch !in Present(course[..i], subscribed)
  }

  /** A send comes past events that do not stray, and panics at the first that does. */
  ghost predicate Came(course: seq<Wake>, handled: nat, outcome: Outcome, subscribed: multiset<Channel>) {
    && handled <= |course| && (forall i :: 0 <= i < handled ==> !Strays(course, i, subscribed))
    && (outcome.Waiting? ==> handled == |course|)
    && (outcome.Panicked? ==> handled < |course| && Strays(course, handled, subscribed))
  }

  lemma NoWakes(course: seq<Wake>, subscribed: multiset<Channel>)
    ensures Inbox(course[..0]) == [] && Present(course[..0], subscribed) == subscribed
  {
  }

  lemma NextWake(course: seq<Wake>, handled: nat, subscribed: multiset<Channel>)
    requires handled < |course|
    ensures var wake := course[handled];
      && course[..handled + 1] != []
      && Present(course[..handled + 1], subscribed) == HereStep(Present(course[..handled], subscribed), wake)
      && Inbox(course[..handled + 1]) == InboxStep(Inbox(course[..handled]), wake)
      && (Strays(course, handled, subscribed) <==>
            wake.Unsubscribes? && wake.ch !in Present(course[..handled], subscribed))
  {
    assert course[..handled + 1][..handled] == course[..handled];
  }

  /** What the list holds are the subscribed channels that have not left. */
  lemma Staying(s: seq<Channel>, m: nat, subscribed: multiset<Channel>, delivered: multiset<Channel>,
                leftUnsent: multiset<Channel>, leftSent: multiset<Channel>)
    requires Accounted(s, m, subscribed, delivered, leftUnsent, leftSent)
    ensures s != [] && s[0] == REMOVE_SUB && s == [REMOVE_SUB] + s[1..]
    ensures multiset(s[1..]) == Left(subscribed, leftUnsent, leftSent)
  {
    assert s[1..] == s[1..m] + s[m..];
  }

  ghost function Left(subscribed: multiset<Channel>, leftUnsent: multiset<Channel>, leftSent: multiset<Channel>)
    : multiset<Channel>
  {
    subscribed - leftUnsent - leftSent
  }

  /** A channel leaves the inbox if it is there, and else the list. */
  lemma OneGone(list: multiset<Channel>, inbox: multiset<Channel>, ch: Channel)
    ensures ch in list + inbox <==> ch in list || ch in inbox
    ensures ch in inbox ==> list + (inbox - multiset{ch}) == list + inbox - multiset{ch}
    ensures ch !in inbox ==> (list - multiset{ch}) + inbox == list + inbox - multiset{ch}
  {
  }

  lemma Unsubscribed(list: seq<Channel>, inbox: seq<Channel>, ch: Channel)
    ensures var k, here := IndexOf(inbox, ch), multiset(list) + multiset(inbox);
      && (ch !in here ==> here - multiset{ch} == here)
      && (k == -1 ==>
            && InboxStep(inbox, Unsubscribes(ch)) == inbox && (ch in here <==> ch in list)
            && (multiset(list) - multiset{ch}) + multiset(inbox) == here - multiset{ch})
      && (k != -1 ==>
            && InboxStep(inbox, Unsubscribes(ch)) == Without(inbox, k) && ch in here
            && multiset(list) + multiset(Without(inbox, k)) == here - multiset{ch})
  {
    hide Without;
    OneGone(multiset(list), multiset(inbox), ch);
    if IndexOf(inbox, ch) != -1 {
      Removed(inbox, IndexOf(inbox, ch));
    }
  }

  lemma OneLess(subscribed: multiset<Channel>, leftUnsent: multiset<Channel>, leftSent: multiset<Channel>, ch: Channel)
    ensures var left := Left(subscribed, leftUnsent, leftSent);
      && Left(subscribed, leftUnsent + multiset{ch}, leftSent) == left - multiset{ch}
      && Left(subscribed, leftUnsent, leftSent + multiset{ch}) == left - multiset{ch}
  {
  }

  /** The channels subscribed during a send and not unsubscribed again: they wait for the next one. */
  ghost function Inbox(course: seq<Wake>): seq<Channel> {
    if course == [] then [] else InboxStep(Inbox(course[..|course| - 1]), course[|course| - 1])
  }

  ghost function InboxStep(s: seq<Channel>, wake: Wake): seq<Channel> {
    match wake
    case Accepts(_) => s
    case Subscribes(ch) => s + [ch]
    case Unsubscribes(ch) => if IndexOf(s, ch) == -1 then s else Without(s, IndexOf(s, ch))
  }

  lemma {:induction false} InboxIsClean(course: seq<Wake>)
    requires NoRemoval(course)
    ensures REMOVE_SUB !in Inbox(course)
  {
    if course != [] {
      InboxIsClean(course[..|course| - 1]);
    }
  }

  lemma AccountedIsWellFormed(s: seq<Channel>, m: nat, subscribed: multiset<Channel>, delivered: multiset<Channel>,
                              leftUnsent: multiset<Channel>, leftSent: multiset<Channel>)
    requires Accounted(s, m, subscribed, delivered, leftUnsent, leftSent) && REMOVE_SUB !in subscribed
    ensures WellFormed(s)
  {
    assert s[1..] == s[1..m] + s[m..];
  }

  lemma PrefixFits(s: seq<Channel>, m: nat, subscribed: multiset<Channel>, delivered: multiset<Channel>,
                   leftUnsent: multiset<Channel>, leftSent: multiset<Channel>)
    requires Accounted(s, m, subscribed, delivered, leftUnsent, leftSent)
    ensures 1 <= m <= |s| && s[0] == REMOVE_SUB
  {
  }

  lemma SendStarts(s: seq<Channel>, subscribed: multiset<Channel>)
    requires WellFormed(s) && multiset(s[1..]) == subscribed
    ensures |s| >= 1
    ensures Accounted(s, |s|, subscribed, multiset{}, multiset{}, multiset{}) && REMOVE_SUB !in subscribed
  {
    assert s[1..|s|] == s[1..] && s[|s|..] == [];
  }
}
