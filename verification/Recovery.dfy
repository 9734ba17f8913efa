/**
How a new listener puts its descriptors in order: connections that were about to
be closed are closed, and a single descriptor that the old listener had got from
`accept` or `connect` and not yet stored goes back to the slot that misses it.
*/
module Recovery {
  import opened States
  import opened Slots

  // The descriptor table of the process: the open descriptors and their FD_CLOEXEC.
  class Descriptors {
    var open: map<int, bool>

    method Close(fd: int)
      modifies this
      ensures open == old(open) - {fd}
    {
      open := open - {fd};
    }

    method Open(fd: int, cloexec: bool)
      modifies this
      ensures open == old(open)[fd := cloexec]
    {
      open := open[fd := cloexec];
    }
  }

  // Descriptors that survived an exec and that nobody knows about.
  ghost function Forgotten(open: map<int, bool>, known: set<int>): set<int> {
    set fd | fd in open && fd !in known && !open[fd]
  }

  ghost function Restrict(open: map<int, bool>, fds: set<int>): map<int, bool> {
    map fd | fd in open && fd in fds :: open[fd]
  }

  // The forgotten ones among those looked at.
  ghost function Lost(open: map<int, bool>, known: set<int>, looked: seq<int>): set<int> {
    set fd | fd in looked && fd in Forgotten(open, known)
  }

  // What has been looked at is closed unless it is known or the candidate.
  ghost predicate Sorted(was: map<int, bool>, known: set<int>, looked: seq<int>, open: map<int, bool>, count: nat, fd: int) {
    && (forall f :: f in was ==> f >= 0)
    && (forall f :: f in open <==> f in was && (f !in looked || f in known || f == fd))
    && (forall f :: f in open ==> open[f] == was[f])
    && count == |Lost(was, known, looked)| && (if count == 1 then Lost(was, known, looked) == {fd} else fd == -1)
  }

  lemma SortedNext(was: map<int, bool>, known: set<int>, looked: seq<int>, open: map<int, bool>, count: nat, fd: int, f: int)
    requires Sorted(was, known, looked, open, count, fd) && f in was && f !in looked
    ensures f in open && open[f] == was[f]
    ensures f in known ==> Sorted(was, known, looked + [f], open, count, fd)
    ensures f !in known && was[f] ==> Sorted(was, known, looked + [f], open - {f}, count, fd)
    ensures f !in known && !was[f] && count == 0 ==> Sorted(was, known, looked + [f], open, 1, f)
    ensures f !in known && !was[f] && count > 0 && fd >= 0 ==> Sorted(was, known, looked + [f], open - {fd} - {f}, count + 1, -1)
    ensures f !in known && !was[f] && count > 0 && fd < 0 ==> Sorted(was, known, looked + [f], open - {f}, count + 1, fd)
  {
    var a, b := Lost(was, known, looked), Lost(was, known, looked + [f]);
    assert forall g :: g in b <==> g in a || (g == f && f in Forgotten(was, known));
    assert b == if f in Forgotten(was, known) then a + {f} else a;
    assert f !in a && (a == {fd} ==> fd in a);
  }

  /**
  `recover_one_fd`. `directory` is the descriptor that `opendir` gets, `order` the
  order in which the directory lists all descriptors.
  */
  method RecoverOneFd(table: Descriptors, known: set<int>, directory: int, order: seq<int>) returns (fd: int)
    requires forall f :: f in table.open ==> f >= 0 && f in order
    requires directory !in table.open && directory >= 0 && directory in order && Distinct(order)
    modifies table
    // It finds a descriptor if and only if exactly one was forgotten, and in any case
    // no other unknown descriptor stays open, nor that of the directory.
    ensures if exists f :: Forgotten(old(table.open), known) == {f} then Forgotten(old(table.open), known) == {fd} else fd == -1
    ensures table.open == Restrict(old(table.open), known + {fd})
    // That is: it survives an exec, nobody knows it, and it is the only one.
    ensures fd != -1 ==> forall f :: f == fd <==> f in old(table.open) && f !in known && !old(table.open)[f]
    ensures fd == -1 ==> forall f :: f in old(table.open) && f !in known && !old(table.open)[f] ==>
                           exists g :: g != f && g in old(table.open) && g !in known && !old(table.open)[g]
    ensures forall f :: f in table.open <==> f in old(table.open) && (f in known || f == fd)
  {
    ghost var was := table.open;
    ForgottenMeans(was, known);
    RestrictMeans(was, known);
    hide Forgotten, Restrict, Distinct;
    table.Open(directory, true);
    var listing := ReadDirectory(table, order);
    fd := ScanDirectory(table, known + {directory}, listing);
    DirectoryClosed(was, known, directory, fd);
    table.Close(directory);
  }

  lemma ForgottenMeans(open: map<int, bool>, known: set<int>)
    requires forall f :: f in open ==> f >= 0
    ensures -1 !in Forgotten(open, known)
    ensures forall f :: f in Forgotten(open, known) <==> f in open && f !in known && !open[f]
    ensures (forall f :: Forgotten(open, known) != {f}) ==>
              forall f :: f in Forgotten(open, known) ==> exists g :: g != f && g in Forgotten(open, known)
  {
    var lost := Forgotten(open, known);
    if forall f :: lost != {f} {
      forall f | f in lost
        ensures exists g :: g != f && g in lost
      {
        OnlyMember(lost, f);
      }
    }
  }

  lemma OnlyMember(s: set<int>, f: int)
    requires f in s
    ensures s == {f} || exists g :: g != f && g in s
  {
    if forall g :: g in s ==> g == f {
      assert s == {f};
    }
  }

  lemma RestrictMeans(open: map<int, bool>, known: set<int>)
    ensures forall fd, f :: f in Restrict(open, known + {fd}) <==> f in open && (f in known || f == fd)
  {
  }

  lemma DirectoryClosed(was: map<int, bool>, known: set<int>, directory: int, fd: int)
    requires directory !in was && directory >= 0
    ensures Forgotten(was[directory := true], known + {directory}) == Forgotten(was, known)
    ensures Restrict(was[directory := true], known + {directory} + {fd}) - {directory} == Restrict(was, known + {fd})
  {
    var a, b := Restrict(was[directory := true], known + {directory} + {fd}) - {directory}, Restrict(was, known + {fd});
    assert a.Keys == b.Keys;
    assert forall f :: f in a ==> a[f] == b[f];
  }

  // The directory lists the open descriptors in any order.
  method ScanDirectory(table: Descriptors, known: set<int>, listing: seq<int>) returns (fd: int)
    requires forall f :: f in listing <==> f in table.open
    requires forall f :: f in table.open ==> f >= 0
    requires Distinct(listing)
    modifies table
    // It finds a descriptor if and only if exactly one was forgotten, and in any
    // case no other unknown descriptor stays open.
    ensures if exists f :: Forgotten(old(table.open), known) == {f} then Forgotten(old(table.open), known) == {fd} else fd == -1
    ensures table.open == Restrict(old(table.open), known + {fd})
  {
    hide Lost, Forgotten, Sorted;
    var count := 0;
    fd := -1;
    ghost var was := table.open;
    NothingLooked(was, known);
    assert listing[..0] == [];
    for i := 0 to |listing|
      invariant Sorted(was, known, listing[..i], table.open, count, fd)
    {
      var f := listing[i];
      assert f in listing && f !in listing[..i] && listing[..i + 1] == listing[..i] + [f];
      SortedNext(was, known, listing[..i], table.open, count, fd, f);
      if f in known {
        continue;
      }
      if table.open[f] {
        table.Close(f);
        continue;
      }
      if count == 0 {
        fd := f;
      } else {
        if fd >= 0 {
          table.Close(fd);
          fd := -1;
        }
        table.Close(f);
      }
      count := count + 1;
    }
    assert listing[..|listing|] == listing;
    AllLooked(was, known, listing, table.open, count, fd);
  }

  lemma NothingLooked(was: map<int, bool>, known: set<int>)
    requires forall f :: f in was ==> f >= 0
    ensures Sorted(was, known, [], was, 0, -1)
  {
  }

  lemma AllLooked(was: map<int, bool>, known: set<int>, listing: seq<int>, open: map<int, bool>, count: nat, fd: int)
    requires Sorted(was, known, listing, open, count, fd) && forall f :: f in listing <==> f in was
    ensures if exists f :: Forgotten(was, known) == {f} then Forgotten(was, known) == {fd} else fd == -1
    ensures open == Restrict(was, known + {fd})
  {
    assert forall f :: f in Forgotten(was, known) ==> f in listing;
    assert Lost(was, known, listing) == Forgotten(was, known);
    forall f
      ensures f in open <==> f in was && f in known + {fd}
    {
      assert f in was ==> f in listing;
    }
    var r := Restrict(was, known + {fd});
    assert forall f :: f in r <==> f in was && f in known + {fd};
    assert open.Keys == r.Keys;
    assert forall f :: f in open ==> open[f] == was[f] == r[f];
    if f :| Forgotten(was, known) == {f} {
      assert count == 1;
    }
  }

  // Slots that wait for the descriptor of a call that has returned.
  ghost predicate Misses(s: Slot) {
    (s.state == CONN_ACCEPTING && s.downListener < 0) || (s.state == CONN_CONNECTING && s.upListener < 0)
  }

  ghost function Repaired(s: Slot, fd: int): Slot {
    if s.state == CONN_ACCEPTING then s.(downListener := fd) else s.(upListener := fd)
  }

  ghost predicate OnlyOne(slots: seq<Slot>, i: nat) {
    && i < |slots| && Misses(slots[i])
    && forall j :: 0 <= j < |slots| && Misses(slots[j]) ==> j == i
  }

  // Puts a recovered descriptor into the only slot that misses one, or closes it.
  method AssignRecovered(slots: array<Slot>, table: Descriptors, fd: int) returns (stored: bool, dest: nat)
    modifies slots, table
    ensures stored ==> OnlyOne(old(slots[..]), dest) && slots[..] == old(slots[..])[dest := Repaired(old(slots[..])[dest], fd)]
    ensures !stored ==> slots[..] == old(slots[..]) && !exists i :: OnlyOne(slots[..], i)
    ensures table.open == if stored then old(table.open) else old(table.open) - {fd}
    // It goes to where the state says it is missing.
    ensures stored ==> dest < slots.Length
                       && var s := old(slots[..])[dest];
                          if s.state == CONN_ACCEPTING then s.downListener < 0 && slots[dest] == s.(downListener := fd)
                          else s.state == CONN_CONNECTING && s.upListener < 0 && slots[dest] == s.(upListener := fd)
    ensures forall j :: 0 <= j < slots.Length && (stored ==> j != dest) ==> slots[j] == old(slots[..])[j]
  {
    var matches := 0;
    dest := 0;
    ghost var other := 0;
    for i := 0 to slots.Length
      invariant matches == 0 ==> forall j :: 0 <= j < i ==> !Misses(slots[j])
      invariant matches > 0 ==> dest < i && Misses(slots[dest])
      invariant matches == 1 ==> forall j :: 0 <= j < i && Misses(slots[j]) ==> j == dest
      invariant matches > 1 ==> other < dest && Misses(slots[other])
    {
      var s := slots[i];
      if (s.state == CONN_ACCEPTING && s.downListener < 0) || (s.state == CONN_CONNECTING && s.upListener < 0) {
        other, dest, matches := dest, i, matches + 1;
      }
    }
    stored := matches == 1;
    if stored {
      var s := slots[dest];
      if s.state == CONN_ACCEPTING {
        slots[dest] := s.(downListener := fd);
      } else {
        slots[dest] := s.(upListener := fd);
      }
    } else {
      table.Close(fd);
    }
  }

  // `cleanup_connections` and the recovery of `main_active`

  // The listener's descriptors of a slot.
  function Held(s: Slot): set<int> {
    (if s.downListener >= 0 then {s.downListener} else {}) + (if s.upListener >= 0 then {s.upListener} else {})
  }

  ghost function Stored(slots: seq<Slot>): set<int> {
    if slots == [] then {} else Stored(slots[..|slots| - 1]) + Held(slots[|slots| - 1])
  }

  ghost predicate Ending(s: Slot) {
    ConnTag(s.state) in {CONN_CLOSING, CONN_ERROR}
  }

  // What ending connections still hold.
  ghost function Doomed(slots: seq<Slot>): set<int> {
    if slots == [] then {} else
      Doomed(slots[..|slots| - 1]) + if Ending(slots[|slots| - 1]) then Held(slots[|slots| - 1]) else {}
  }

  ghost function CleanedUp(s: Slot): Slot {
    if Ending(s) then s.(state := CONN_UNUSED, downListener := NO_FD, upListener := NO_FD) else s
  }

  ghost function AllCleanedUp(slots: seq<Slot>): (r: seq<Slot>)
    ensures |r| == |slots|
  {
    seq(|slots|, i requires 0 <= i < |slots| => CleanedUp(slots[i]))
  }

  lemma CleanedUpNext(was: seq<Slot>, i: nat)
    requires i < |was|
    ensures Stored(AllCleanedUp(was[..i + 1])) == Stored(AllCleanedUp(was[..i])) + if Ending(was[i]) then {} else Held(was[i])
    ensures Doomed(was[..i + 1]) == Doomed(was[..i]) + if Ending(was[i]) then Held(was[i]) else {}
    ensures AllCleanedUp(was[..i + 1]) == AllCleanedUp(was[..i]) + [CleanedUp(was[i])]
  {
    var now := AllCleanedUp(was[..i + 1]);
    assert was[..i + 1][..i] == was[..i];
    assert now[..i] == AllCleanedUp(was[..i]) && now[i] == CleanedUp(was[i]);
  }

  method CleanupConnections(slots: array<Slot>, table: Descriptors, known: set<int>) returns (known': set<int>)
    modifies slots, table
    ensures slots[..] == AllCleanedUp(old(slots[..])) && known' == known + Stored(slots[..])
    ensures table.open == old(table.open) - Doomed(old(slots[..]))
    // An ending connection loses its descriptors and its slot, every other one keeps both.
    ensures forall i :: 0 <= i < slots.Length ==>
              var s := old(slots[..])[i];
              slots[i] == if s.state % 0x100 in {CONN_CLOSING, CONN_ERROR}
                          then s.(state := CONN_UNUSED, downListener := -1, upListener := -1) else s
    ensures forall fd :: fd in table.open && fd >= 0 <==>
              fd in old(table.open) && fd >= 0 && forall s :: s in old(slots[..]) && s.state % 0x100 in {CONN_CLOSING, CONN_ERROR} ==>
                                                 fd != s.downListener && fd != s.upListener
    ensures forall fd :: fd in known' <==>
              fd in known || (fd >= 0 && exists s :: s in slots[..] && (fd == s.downListener || fd == s.upListener))
  {
    hide AllCleanedUp, Stored, Doomed, CleanedUp, Ending, Held;
    known' := known;
    ghost var was, open := slots[..], table.open;
    NothingCleanedUp(was);
    for i := 0 to slots.Length
      invariant slots[..] == AllCleanedUp(was[..i]) + was[i..]
      invariant known' == known + Stored(AllCleanedUp(was[..i]))
      invariant table.open == open - Doomed(was[..i])
    {
      CleanedUpNext(was, i);
      NextReplaced(AllCleanedUp(was[..i]), was, i, CleanedUp(was[i]));
      MinusTwice(open, Doomed(was[..i]), if Ending(was[i]) then Held(was[i]) else {});
      known' := CleanupOne(slots, i, table, known');
    }
    assert was[..slots.Length] == was;
    DoomedMeans(was);
    CleanedUpMeans(was);
    StoredMeans(slots[..]);
  }

  lemma {:induction false} DoomedMeans(slots: seq<Slot>)
    ensures forall fd :: fd in Doomed(slots) <==>
              fd >= 0 && exists s :: s in slots && s.state % 0x100 in {CONN_CLOSING, CONN_ERROR}
                                     && (fd == s.downListener || fd == s.upListener)
  {
    if slots != [] {
      DoomedMeans(slots[..|slots| - 1]);
      assert slots == slots[..|slots| - 1] + [slots[|slots| - 1]];
    }
  }

  lemma {:induction false} StoredMeans(slots: seq<Slot>)
    ensures forall fd :: fd in Stored(slots) <==>
              fd >= 0 && exists s :: s in slots && (fd == s.downListener || fd == s.upListener)
  {
    if slots != [] {
      StoredMeans(slots[..|slots| - 1]);
      assert slots == slots[..|slots| - 1] + [slots[|slots| - 1]];
    }
  }

  lemma CleanedUpMeans(slots: seq<Slot>)
    ensures forall i :: 0 <= i < |slots| ==>
              AllCleanedUp(slots)[i] == if slots[i].state % 0x100 in {CONN_CLOSING, CONN_ERROR}
                                        then slots[i].(state := CONN_UNUSED, downListener := -1, upListener := -1) else slots[i]
  {
  }

  lemma NextReplaced(done: seq<Slot>, was: seq<Slot>, i: nat, s: Slot)
    requires |done| == i < |was|
    ensures (done + was[i..])[i := s] == done + [s] + was[i + 1..] && (done + was[i..])[i] == was[i]
  {
  }

  lemma MinusTwice(open: map<int, bool>, a: set<int>, b: set<int>)
    ensures open - a - b == open - (a + b)
  {
  }

  method CleanupOne(slots: array<Slot>, i: nat, table: Descriptors, known: set<int>) returns (known': set<int>)
    requires i < slots.Length
    modifies slots, table
    ensures slots[..] == old(slots[..])[i := CleanedUp(old(slots[i]))]
    ensures known' == known + if old(Ending(slots[i])) then {} else Held(old(slots[i]))
    ensures table.open == old(table.open) - if old(Ending(slots[i])) then Held(old(slots[i])) else {}
  {
    known' := known;
    var s := slots[i];
    var tag := ConnTag(s.state);
    if tag == CONN_ERROR || tag == CONN_CLOSING {
      CloseHeld(table, s);
      slots[i] := s.(state := CONN_UNUSED, downListener := NO_FD, upListener := NO_FD);
    } else {
      known' := known' + Held(s);
    }
  }

  lemma NothingCleanedUp(was: seq<Slot>)
    ensures AllCleanedUp(was[..0]) == [] && Stored(AllCleanedUp(was[..0])) == {} && Doomed(was[..0]) == {}
  {
  }

  // `close_connection`
  method CloseHeld(table: Descriptors, s: Slot)
    modifies table
    ensures table.open == old(table.open) - Held(s)
  {
    if s.upListener >= 0 {
      table.Close(s.upListener);
    }
    if s.downListener >= 0 {
      table.Close(s.downListener);
    }
  }

  // `readdir` on /proc/self/fd: the open descriptors in the order of the kernel.
  method ReadDirectory(table: Descriptors, order: seq<int>) returns (listing: seq<int>)
    requires Distinct(order) && forall f :: f in table.open ==> f in order
    ensures Distinct(listing) && forall f :: f in listing <==> f in table.open
  {
    listing := [];
    for i := 0 to |order|
      invariant forall f :: f in listing <==> f in order[..i] && f in table.open
      invariant Distinct(listing)
    {
      assert order[..i + 1] == order[..i] + [order[i]] && order[i] !in order[..i];
      if order[i] in table.open {
        listing := listing + [order[i]];
      }
    }
    assert order[..|order|] == order;
  }

  ghost predicate Distinct(s: seq<int>) {
    forall i, j :: 0 <= i < j < |s| ==> s[i] != s[j]
  }

  // A slot that needs a descriptor it does not have.
  ghost predicate Incomplete(s: Slot) {
    var state := ConnTag(s.state);
    || (state in {CONN_POLL, CONN_SWAP_BUFFERS, CONN_CONNECTING} && (s.upListener < 0 || s.downListener < 0))
    || (state == CONN_ACCEPTING && s.downListener < 0)
  }

  // The asserts of `main_active` when nothing was recovered.
  method AllComplete(slots: array<Slot>) returns (ok: bool)
    ensures ok <==> forall i :: 0 <= i < slots.Length ==> !Incomplete(slots[i])
  {
    for i := 0 to slots.Length
      invariant forall j :: 0 <= j < i ==> !Incomplete(slots[j])
    {
      var s := slots[i];
      var state := ConnTag(s.state);
      if (state == CONN_POLL || state == CONN_SWAP_BUFFERS || state == CONN_CONNECTING) && (s.upListener < 0 || s.downListener < 0) {
        return false;
      }
      if state == CONN_ACCEPTING && s.downListener < 0 {
        return false;
      }
    }
    return true;
  }

  lemma StoredRepaired(slots: seq<Slot>, i: nat, fd: int)
    requires i < |slots| && Misses(slots[i]) && fd >= 0
    ensures Stored(slots[i := Repaired(slots[i], fd)]) == Stored(slots) + {fd}
  {
    var last, slots' := |slots| - 1, slots[i := Repaired(slots[i], fd)];
    if i == last {
      assert slots'[..last] == slots[..last];
    } else {
      StoredRepaired(slots[..last], i, fd);
      assert slots'[..last] == slots[..last][i := Repaired(slots[i], fd)];
    }
  }

  // A single forgotten descriptor goes to the only slot that misses one. No other
  // slot changes, and afterwards a descriptor is open if and only if it was and is
  // known or stored in a slot.
  ghost predicate Restarted(slots: seq<Slot>, open: map<int, bool>, known: set<int>,
                            ok: bool, slots': seq<Slot>, open': map<int, bool>) {
    var before, left := AllCleanedUp(slots), open - Doomed(slots);
    var lost := Forgotten(left, known + Stored(before));
    && (if (exists fd :: lost == {fd}) && (exists i: nat :: OnlyOne(before, i)) then
          exists fd: int, i: nat :: lost == {fd} && OnlyOne(before, i) && slots' == before[i := Repaired(before[i], fd)]
        else slots' == before)
    && (ok <==> (exists fd :: lost == {fd}) || forall s :: s in before ==> !Incomplete(s))
    && open' == Restrict(left, known + Stored(slots'))
  }

  // The same on the fields.

  ghost predicate Stray(slots: seq<Slot>, open: map<int, bool>, known: set<int>, fd: int) {
    && fd in open && !open[fd] && fd !in known
    && forall s :: s in slots ==> fd != s.downListener && fd != s.upListener
  }

  ghost predicate OnlyStray(slots: seq<Slot>, open: map<int, bool>, known: set<int>, fd: int) {
    forall f :: f == fd <==> Stray(slots, open, known, f)
  }

  // An ending connection loses its descriptors and its slot. Every other one stays as it
  // is, unless it gets the only stray descriptor; that it gets if it is the only one to miss one.
  ghost predicate SlotsInOrder(slots: seq<Slot>, open: map<int, bool>, known: set<int>, slots': seq<Slot>) {
    && |slots'| == |slots|
    && (forall i: nat :: i < |slots| ==>
          if slots[i].state % 0x100 in {CONN_CLOSING, CONN_ERROR} then
            slots'[i] == slots[i].(state := CONN_UNUSED, downListener := -1, upListener := -1)
          else
            slots'[i] == slots[i]
            || (OnlyOne(slots, i) && exists fd :: OnlyStray(slots, open, known, fd) && Restores(slots[i], fd, slots'[i])))
    && (forall i: nat, fd :: OnlyOne(slots, i) && OnlyStray(slots, open, known, fd) ==> Restores(slots[i], fd, slots'[i]))
  }

  ghost predicate Restores(s: Slot, fd: int, s': Slot) {
    || (s.state == CONN_ACCEPTING && s.downListener < 0 && s' == s.(downListener := fd))
    || (s.state == CONN_CONNECTING && s.upListener < 0 && s' == s.(upListener := fd))
  }

  // Open are those that were, that no ending connection had, and that are known or stored.
  ghost predicate TableInOrder(slots: seq<Slot>, open: map<int, bool>, known: set<int>, slots': seq<Slot>, open': map<int, bool>) {
    forall fd :: fd in open' <==>
      && fd in open
      && (forall s :: s in slots && s.state % 0x100 in {CONN_CLOSING, CONN_ERROR} ==> fd != s.downListener && fd != s.upListener)
      && (fd in known || exists s :: s in slots' && (fd == s.downListener || fd == s.upListener))
  }

  // No slot misses a descriptor that its state asks for.
  ghost predicate NoneIncomplete(slots: seq<Slot>) {
    forall s :: s in slots ==>
      && (s.state % 0x100 in {CONN_POLL, CONN_SWAP_BUFFERS, CONN_CONNECTING} ==> s.upListener >= 0 && s.downListener >= 0)
      && (s.state % 0x100 == CONN_ACCEPTING ==> s.downListener >= 0)
  }

  lemma StrayMeans(slots: seq<Slot>, open: map<int, bool>, known: set<int>)
    requires forall f :: f in open ==> f >= 0
    ensures var lost := Forgotten(open - Doomed(slots), known + Stored(AllCleanedUp(slots)));
            && (forall fd :: fd in lost <==> Stray(slots, open, known, fd))
            && (forall fd :: lost == {fd} <==> OnlyStray(slots, open, known, fd))
  {
    var before := AllCleanedUp(slots);
    DoomedMeans(slots);
    CleanedUpMeans(slots);
    StoredMeans(before);
    var lost := Forgotten(open - Doomed(slots), known + Stored(before));
    forall fd
      ensures fd in lost <==> Stray(slots, open, known, fd)
    {
      if fd in open {
        HeldAfterwards(slots, fd);
      }
    }
    hide Stray, Forgotten;
    forall fd
      ensures lost == {fd} <==> OnlyStray(slots, open, known, fd)
    {
      assert lost == {fd} <==> forall f :: f == fd <==> f in lost;
    }
  }

  // A slot has a descriptor afterwards, or it was ending and had it.
  lemma HeldAfterwards(slots: seq<Slot>, fd: int)
    requires fd >= 0
    ensures (exists s :: s in slots && (fd == s.downListener || fd == s.upListener))
       <==> fd in Doomed(slots) || fd in Stored(AllCleanedUp(slots))
  {
    DoomedMeans(slots);
    CleanedUpMeans(slots);
    StoredMeans(AllCleanedUp(slots));
    var before := AllCleanedUp(slots);
    forall s | s in slots && (fd == s.downListener || fd == s.upListener)
      ensures fd in Doomed(slots) || fd in Stored(before)
    {
      var i :| 0 <= i < |slots| && slots[i] == s;
      assert before[i] in before;
    }
    forall s | s in before && (fd == s.downListener || fd == s.upListener)
      ensures exists t :: t in slots && (fd == t.downListener || fd == t.upListener)
    {
      var i :| 0 <= i < |before| && before[i] == s;
      assert slots[i] in slots;
    }
  }

  lemma OnlyOneAfterwards(slots: seq<Slot>)
    ensures forall i: nat :: OnlyOne(AllCleanedUp(slots), i) <==> OnlyOne(slots, i)
  {
    var before := AllCleanedUp(slots);
    CleanedUpMeans(slots);
    hide AllCleanedUp;
    assert forall i :: 0 <= i < |slots| ==> (Misses(before[i]) <==> Misses(slots[i]));
  }

  lemma CompleteAfterwards(slots: seq<Slot>)
    ensures (forall s :: s in AllCleanedUp(slots) ==> !Incomplete(s)) <==> NoneIncomplete(slots)
  {
    var before := AllCleanedUp(slots);
    CleanedUpMeans(slots);
    hide AllCleanedUp;
    forall i | 0 <= i < |slots|
      ensures before[i] in before && slots[i] in slots
      ensures Incomplete(before[i]) <==> Incomplete(slots[i])
    {
    }
  }

  lemma SlotsMean(slots: seq<Slot>, open: map<int, bool>, known: set<int>,
                  ok: bool, slots': seq<Slot>, open': map<int, bool>)
    requires Restarted(slots, open, known, ok, slots', open') && forall f :: f in open ==> f >= 0
    ensures SlotsInOrder(slots, open, known, slots')
  {
    StrayMeans(slots, open, known);
    OnlyOneAfterwards(slots);
    CleanedUpMeans(slots);
    forall i: nat | OnlyOne(slots, i)
      ensures i < |slots| && slots[i].state % 0x100 !in {CONN_CLOSING, CONN_ERROR}
      ensures forall fd :: Restores(slots[i], fd, Repaired(slots[i], fd))
    {
      OnlyOneRestored(slots[i]);
    }
    hide AllCleanedUp, Doomed, Stored, Incomplete, OnlyStray, Stray, Forgotten, Restrict, OnlyOne, Repaired, Restores;
  }

  lemma OnlyOneRestored(s: Slot)
    requires Misses(s)
    ensures s.state % 0x100 !in {CONN_CLOSING, CONN_ERROR} && forall fd :: Restores(s, fd, Repaired(s, fd))
  {
  }

  lemma OkMeans(slots: seq<Slot>, open: map<int, bool>, known: set<int>,
                ok: bool, slots': seq<Slot>, open': map<int, bool>)
    requires Restarted(slots, open, known, ok, slots', open') && forall f :: f in open ==> f >= 0
    ensures ok <==> (exists fd :: OnlyStray(slots, open, known, fd)) || NoneIncomplete(slots)
  {
    StrayMeans(slots, open, known);
    CompleteAfterwards(slots);
    hide AllCleanedUp, Doomed, Stored, Incomplete, OnlyStray, Stray, Forgotten, Restrict, NoneIncomplete, OnlyOne;
  }

  lemma TableMeans(slots: seq<Slot>, open: map<int, bool>, known: set<int>,
                   ok: bool, slots': seq<Slot>, open': map<int, bool>)
    requires Restarted(slots, open, known, ok, slots', open') && forall f :: f in open ==> f >= 0
    ensures TableInOrder(slots, open, known, slots', open')
  {
    DoomedMeans(slots);
    StoredMeans(slots');
    hide AllCleanedUp, Doomed, Stored, Incomplete, OnlyOne, Forgotten, Repaired;
  }

  /**
  The beginning of `main_active`. `known` are the descriptors from the command
  line and the standard streams.
  */
  method Restart(slots: array<Slot>, table: Descriptors, known: set<int>, directory: int, order: seq<int>) returns (ok: bool)
    requires forall f :: f in table.open ==> f >= 0 && f in order
    requires directory !in table.open && directory >= 0 && directory in order && Distinct(order)
    modifies slots, table
    ensures Restarted(old(slots[..]), old(table.open), known, ok, slots[..], table.open)
    ensures SlotsInOrder(old(slots[..]), old(table.open), known, slots[..])
    ensures TableInOrder(old(slots[..]), old(table.open), known, slots[..], table.open)
    ensures ok <==> (exists fd :: OnlyStray(old(slots[..]), old(table.open), known, fd)) || NoneIncomplete(old(slots[..]))
  {
    hide AllCleanedUp, Doomed, Stored, Forgotten, Restrict, OnlyOne, Repaired, Incomplete, Distinct, SlotsInOrder, TableInOrder, NoneIncomplete;
    ghost var was, open := slots[..], table.open;
    var all := CleanupConnections(slots, table, known);
    ghost var before, left := slots[..], table.open;
    var fd := RecoverOneFd(table, all, directory, order);
    ForgottenFits(left, all, fd);
    if fd < 0 {
      ok := AllComplete(slots);
      SlotsMean(was, open, known, ok, slots[..], table.open);
      OkMeans(was, open, known, ok, slots[..], table.open);
      TableMeans(was, open, known, ok, slots[..], table.open);
      return;
    }
    var stored, dest := AssignRecovered(slots, table, fd);
    if stored {
      assert OnlyOne(before, dest);
      MissesWhenOnly(before, dest);
      StoredRepaired(before, dest, fd);
      assert known + Stored(before) + {fd} == known + (Stored(before) + {fd});
    }
    ok := true;
    SlotsMean(was, open, known, ok, slots[..], table.open);
    OkMeans(was, open, known, ok, slots[..], table.open);
    TableMeans(was, open, known, ok, slots[..], table.open);
  }

  lemma MissesWhenOnly(slots: seq<Slot>, i: nat)
    requires OnlyOne(slots, i)
    ensures i < |slots| && Misses(slots[i])
  {
  }

  lemma ForgottenFits(open: map<int, bool>, known: set<int>, fd: int)
    requires forall f :: f in open ==> f >= 0
    ensures Forgotten(open, known) == {fd} ==> fd >= 0 && Restrict(open, known + {fd}) - {fd} == Restrict(open, known)
    ensures fd == -1 ==> Restrict(open, known + {fd}) == Restrict(open, known)
  {
    if Forgotten(open, known) == {fd} {
      assert fd in Forgotten(open, known);
    }
  }
}
