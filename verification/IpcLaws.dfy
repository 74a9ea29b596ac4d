/** When mappings that ask for no number can lose it to later ones. */
module IpcLaws {
  import opened Options
  import opened Descriptors
  import opened Ipc

  lemma {:induction false} InstalledFrom(rest: Table, ms: seq<Mapping>, nums: seq<int>, n: int)
    requires |ms| == |nums| && n in Installed(rest, ms, nums) && n !in rest
    ensures n in nums
    decreases |ms|
  {
    if ms != [] {
      var last := |ms| - 1;
      assert nums[last] in nums;
      if n != nums[last] {
        InstalledFrom(rest, ms[..last], nums[..last], n);
        assert forall x :: x in nums[..last] ==> x in nums;
      }
    }
  }

  /** A named mapping refers to its file as long as no later one asks for its number. */
  lemma UnrequestedStays(open0: Table, rest: Table, ms: seq<Mapping>, nums: seq<int>, i: nat)
    requires Picked(open0, rest, ms, nums) && i < |ms| && forall j :: i < j < |ms| ==> ms[j].requested != nums[i]
    ensures nums[i] in Installed(rest, ms, nums) && Installed(rest, ms, nums)[nums[i]] == ms[i].file
  {
    forall j | i < j < |ms| ensures nums[j] != nums[i] {
      assert PickedAt(open0, rest, ms, nums, j);
      InstalledHas(rest, ms[..j], nums[..j], i);
    }
    InstalledStays(rest, ms, nums, i);
  }

  /** And it refers to the file of the last later mapping that does. */
  lemma RequestedTakes(open0: Table, rest: Table, ms: seq<Mapping>, nums: seq<int>, i: nat, k: nat)
    requires Picked(open0, rest, ms, nums) && i < k < |ms| && ms[k].requested == nums[i]
    requires forall j :: k < j < |ms| ==> ms[j].requested != nums[i]
    ensures nums[i] in Installed(rest, ms, nums) && Installed(rest, ms, nums)[nums[i]] == ms[k].file
  {
    assert PickedAt(open0, rest, ms, nums, i) && PickedAt(open0, rest, ms, nums, k);
    UnrequestedStays(open0, rest, ms, nums, k);
  }

  /** A mapping that asks for no number, and one that asks for `n`. */
  function Late(n: int, f: File, g: File): seq<Mapping> { [Mapping(-1, f, "a")] + [Mapping(n, g, "")] }

  lemma LatePicked(open0: Table, n: int, f: File, g: File)
    requires n >= 0 && n !in open0
    ensures Picked(open0, open0, Late(n, f, g), [n] + [n])
  {
    var m0, m1 := Mapping(-1, f, "a"), Mapping(n, g, "");
    PickedMore(open0, open0, [], [], m0, n, open0);
    assert [] + [m0] == [m0] && [] + [n] == [n];
    LateInstalled(open0, n, f, g);
    PickedMore(open0, open0, [m0], [n], m1, n, open0[n := f]);
  }

  lemma LateInstalled(rest: Table, n: int, f: File, g: File)
    ensures Installed(rest, [Mapping(-1, f, "a")], [n]) == rest[n := f]
    ensures Installed(rest, Late(n, f, g), [n] + [n]) == rest[n := f][n := g]
  {
    var m0 := Mapping(-1, f, "a");
    assert [m0][..0] == [] && [n][..0] == [];
    assert Late(n, f, g)[..1] == [m0] && ([n] + [n])[..1] == [n];
  }

  lemma LateNames(n: int, f: File, g: File)
    ensures Names(Late(n, f, g), [n] + [n]) == map["a" := n]
  {
    var m0 := Mapping(-1, f, "a");
    assert [m0][..0] == [] && [n][..0] == [];
    assert Names([m0], [n]) == Names([], [])["a" := n];
    assert Late(n, f, g)[..1] == [m0] && ([n] + [n])[..1] == [n];
  }

  /** When its descriptor arrives at the number that the next mapping asks for, the name of the first
      refers to the file of the second. */
  lemma LateRequestTakes(open0: Table, n: int, f: File, g: File)
    requires n >= 0 && n !in open0
    ensures var ms, nums := Late(n, f, g), [n] + [n];
            && Picked(open0, open0, ms, nums) && !Safe(open0, ms)
            && Names(ms, nums) == map["a" := n]
            && n in Installed(open0, ms, nums) && Installed(open0, ms, nums)[n] == g
  {
    LatePicked(open0, n, f, g);
    LateInstalled(open0, n, f, g);
    LateNames(n, f, g);
    assert Late(n, f, g)[0].requested == -1 && Late(n, f, g)[1].requested == n;
  }

  /** Numbers can be picked, and mapping number `at`, if it asks for none, can get `want` unless that
      is in use. */
  lemma {:induction false} Pick(open0: Table, rest: Table, ms: seq<Mapping>, at: nat, want: int)
    returns (nums: seq<int>)
    requires forall m :: m in ms ==> m.requested >= -1
    ensures Picked(open0, rest, ms, nums)
    ensures at < |ms| && ms[at].requested == -1 && want >= 0 && want !in open0 ==>
              nums[at] == want || want in Installed(rest, ms[..at], nums[..at])
    decreases |ms|
  {
    if ms == [] {
      nums := [];
    } else {
      var k := |ms| - 1;
      var before, m := ms[..k], ms[k];
      assert ms == before + [m] && m in ms;
      var nums0 := Pick(open0, rest, before, at, want);
      var used := open0 + Installed(rest, before, nums0);
      var fd := FreeNumber(used.Keys);
      if m.requested != -1 {
        fd := m.requested;
      } else if k == at && want >= 0 && want !in used {
        fd := want;
      }
      PickedMore(open0, rest, before, nums0, m, fd, used);
      nums := nums0 + [fd];
      assert nums[..k] == nums0;
      if at < k {
        assert ms[..at] == before[..at] && nums[..at] == nums0[..at];
      }
    }
  }

  ghost predicate AllDiffer(nums: seq<int>) {
    forall i, j :: 0 <= i < j < |nums| ==> nums[i] != nums[j]
  }

  /** If some pair is unsafe, free numbers can be picked so that two mappings get the same. */
  lemma UnsafeClashes(open0: Table, rest: Table, ms: seq<Mapping>) returns (nums: seq<int>)
    requires rest.Keys <= open0.Keys && (forall m :: m in ms ==> m.requested >= -1) && !Safe(open0, ms)
    ensures Picked(open0, rest, ms, nums) && !AllDiffer(nums)
  {
    var i, j :| 0 <= i < j < |ms| && ms[j].requested != -1
                && if ms[i].requested == -1 then ms[j].requested !in open0 else ms[i].requested == ms[j].requested;
    var want := ms[j].requested;
    assert ms[j] in ms;
    nums := Pick(open0, rest, ms, i, want);
    assert PickedAt(open0, rest, ms, nums, i) && PickedAt(open0, rest, ms, nums, j);
    if nums[i] != want {
      InstalledFrom(rest, ms[..i], nums[..i], want);
      var k :| 0 <= k < i && nums[..i][k] == want;
      assert nums[k] == nums[j];
    }
  }

  /** No mapping can lose its number to another, whichever free numbers the kernel picks, exactly
      when the requests are safe. */
  lemma NeverLostIff(open0: Table, rest: Table, ms: seq<Mapping>)
    requires rest.Keys <= open0.Keys && forall m :: m in ms ==> m.requested >= -1
    ensures (forall nums | Picked(open0, rest, ms, nums) :: AllDiffer(nums)) <==> Safe(open0, ms)
  {
    if Safe(open0, ms) {
      forall nums | Picked(open0, rest, ms, nums) ensures AllDiffer(nums) {
        forall i, j | 0 <= i < j < |nums| ensures nums[i] != nums[j] {
          SafePicks(open0, rest, ms, nums, i, j);
        }
      }
    } else {
      var nums := UnsafeClashes(open0, rest, ms);
    }
  }

  // ----- from one process to the other -----

  /** Exactly the names of the mappings are known. */
  lemma {:induction false} NamesExactly(ms: seq<Mapping>, nums: seq<int>, name: string)
    requires |ms| == |nums|
    ensures name in Names(ms, nums) <==> name != "" && exists i :: 0 <= i < |ms| && ms[i].name == name
    decreases |ms|
  {
    if ms != [] {
      var n := |ms| - 1;
      NamesExactly(ms[..n], nums[..n], name);
      assert ms == ms[..n] + [ms[n]];
    }
  }

  /** When the mappings that the client installs are the entries of the sender's map, and they are safe,
      then every entry's descriptor is there in the end: at the number that was wanted, if any, and
      under its name, if any, and it is the file that the sender had. */
  lemma EntriesArrive(open: Table, entries: seq<Entry>, open0: Table, rest: Table, nums: seq<int>, i: nat)
    requires i < |entries| && (forall e :: e in entries ==> e.localFd in open)
    requires var ms := MappingsOf(open, entries); Picked(open0, rest, ms, nums) && Safe(open0, ms) && DistinctNames(ms)
    ensures var ms, e := MappingsOf(open, entries), entries[i];
            && nums[i] in Installed(rest, ms, nums) && Installed(rest, ms, nums)[nums[i]] == open[e.localFd]
            && (e.remoteFd != -1 ==> nums[i] == e.remoteFd)
            && (e.name != "" ==> e.name in Names(ms, nums) && Names(ms, nums)[e.name] == nums[i])
  {
    var ms := MappingsOf(open, entries);
    assert entries[i] in entries;
    assert PickedAt(open0, rest, ms, nums, i);
    SafeStays(open0, rest, ms, nums);
    if entries[i].name != "" {
      NamesGive(ms, nums, i);
    }
  }
}
