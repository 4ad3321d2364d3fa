/**
 Removing unsupported entries from the dynamic section of an ELF file, in place: an entry that has
 to go is tagged as null and exchanged with the last entry that is not, and the entry that came
 from there is looked at next. The indices are 32-bit and step below zero when the first entry of
 the section is the last to go.
 */
module ElfCleaner {
  import opened Words

  const DT_NULL := 0
  const DT_RPATH := 15
  const DT_RUNPATH := 29
  const DT_GNU_HASH := 0x6fff_fef5
  const DT_VERSYM := 0x6fff_fff0
  const DT_FLAGS_1 := 0x6fff_fffb
  const DT_VERDEF := 0x6fff_fffc
  const DT_VERDEFNUM := 0x6fff_fffd
  const DT_VERNEEDED := 0x6fff_fffe
  const DT_VERNEEDNUM := 0x6fff_ffff
  const DT_AARCH64_BTI_PLT := 0x7000_0001
  const DT_AARCH64_PAC_PLT := 0x7000_0003
  const DT_AARCH64_VARIANT_PCS := 0x7000_0005


  type u32 = x: int | 0 <= x < U32_LIMIT

  datatype Entry = Entry(tag: int, value: bv64)

  /** The api level, whether the file is for 64-bit ARM, and the `DF_1_*` flags that are kept. */
  datatype Options = Options(apiLevel: int, aarch64: bool, flags: bv64)

  predicate Removable(o: Options, tag: int) {
    || (o.apiLevel < 23 && (tag == DT_GNU_HASH || tag == DT_VERSYM || tag == DT_VERNEEDED || tag == DT_VERNEEDNUM
                            || tag == DT_VERDEF || tag == DT_VERDEFNUM))
    || tag == DT_RPATH
    || (o.apiLevel < 24 && tag == DT_RUNPATH)
    || (o.aarch64 && o.apiLevel < 31
        && (tag == DT_AARCH64_BTI_PLT || tag == DT_AARCH64_PAC_PLT || tag == DT_AARCH64_VARIANT_PCS))
  }

  /** By the numbers of the tags: below api level 23 the GNU hash and the five version entries go, below
      24 the run path, on 64-bit ARM below 31 the three branch protection entries, and the library path
      always; nothing else. */
  lemma RemovedTags(o: Options, tag: int)
    ensures Removable(o, tag) <==>
            || tag == 15
            || (o.apiLevel <= 23 && tag == 29)
            || (o.apiLevel <= 22 && (tag == 0x6ffffef5 || tag == 0x6ffffff0 || 0x6ffffffc <= tag <= 0x6fffffff))
            || (o.apiLevel <= 30 && o.aarch64 && (tag == 0x70000001 || tag == 0x70000003 || tag == 0x70000005))
  {
  }

  function Masked(o: Options, v: bv64): bv64 {
    v & o.flags
  }

  /** What becomes of one entry, wherever it ends up. */
  function Clean(o: Options, e: Entry): Entry {
    if Removable(o, e.tag) then e.(tag := DT_NULL)
    else if e.tag == DT_FLAGS_1 then e.(value := Masked(o, e.value))
    else e
  }

  /** An entry with the number of the flags keeps those that are supported, one that goes keeps its
      value under the tag zero, and any other is left alone. */
  lemma CleanedEntry(o: Options, tag: int, v: bv64)
    ensures Clean(o, Entry(tag, v)) ==
            if Removable(o, tag) then Entry(0, v)
            else if tag == 0x6ffffffb then Entry(tag, v & o.flags)
            else Entry(tag, v)
  {
  }

  function CleanAll(o: Options, s: seq<Entry>): (r: seq<Entry>)
    ensures |r| == |s| && forall i :: 0 <= i < |s| ==> r[i] == Clean(o, s[i])
  {
    seq(|s|, i requires 0 <= i < |s| => Clean(o, s[i]))
  }

  lemma CleanIsFinal(o: Options, e: Entry)
    ensures Clean(o, Clean(o, e)) == Clean(o, e)
    ensures !Removable(o, Clean(o, e).tag)
  {
    MaskIsFinal(e.value, o.flags);
  }

  lemma MaskIsFinal(x: bv64, f: bv64)
    ensures (x & f) & f == x & f
  {
  }

  /** Null entries only at the end, so that a loader, which stops at the first, sees all others. */
  ghost predicate Dense(s: seq<Entry>) {
    forall i, k :: 0 <= i < k < |s| && s[i].tag == DT_NULL ==> s[k].tag == DT_NULL
  }

  function Swapped(s: seq<Entry>, i: nat, k: nat): seq<Entry>
    requires i < |s| && k < |s|
  {
    s[i := s[k]][k := s[i]]
  }

  lemma SwapKeepsEntries(s: seq<Entry>, i: nat, k: nat)
    requires i < |s| && k < |s|
    ensures multiset(Swapped(s, i, k)) == multiset(s)
  {
  }

  /** Cleaning commutes with a change that cleaning would make anyway, and with an exchange. */
  lemma CleanAllAfterChange(o: Options, s: seq<Entry>, i: nat, e: Entry)
    requires i < |s| && Clean(o, e) == Clean(o, s[i])
    ensures CleanAll(o, s[i := e]) == CleanAll(o, s)
  {
  }

  lemma CleanAllAfterSwap(o: Options, s: seq<Entry>, i: nat, k: nat)
    requires i < |s| && k < |s|
    ensures multiset(CleanAll(o, Swapped(s, i, k))) == multiset(CleanAll(o, s))
  {
    assert CleanAll(o, Swapped(s, i, k)) == Swapped(CleanAll(o, s), i, k);
    SwapKeepsEntries(CleanAll(o, s), i, k);
  }

  /** The last entry that is not null, or 0. */
  function LastIndex(s: seq<Entry>): (last: nat)
    ensures last < |s| || (s == [] && last == 0)
    ensures forall k :: last < k < |s| ==> s[k].tag == DT_NULL
    ensures last > 0 ==> s[last].tag != DT_NULL
  {
    if |s| <= 1 || s[|s| - 1].tag != DT_NULL then if s == [] then 0 else |s| - 1
    else LastIndex(s[..|s| - 1])
  }

  lemma LastIndexIs(s: seq<Entry>, last: nat)
    requires last < |s| && (forall k :: last < k < |s| ==> s[k].tag == DT_NULL)
    requires last > 0 ==> s[last].tag != DT_NULL
    ensures LastIndex(s) == last
  {
    assert s[LastIndex(s)].tag == DT_NULL || last >= LastIndex(s);
  }

  /** Which of the entries from position j on are kept, in their new order: entry c has come to
      position j, and those up to l have not been moved yet. */
  function Kept(o: Options, s: seq<Entry>, j: nat, c: nat, l: int): (r: seq<nat>)
    requires j <= l + 1 && l < |s| && (j <= l ==> c < |s|)
    ensures |r| <= l + 1 - j
    ensures forall i :: 0 <= i < |r| ==> r[i] < |s| && !Removable(o, s[r[i]].tag)
    decreases l - j + 1
  {
    if j > l then []
    else if Removable(o, s[c].tag) then Kept(o, s, j, l, l - 1)
    else [c] + Kept(o, s, j + 1, j + 1, l)
  }

  function KeptIndices(o: Options, s: seq<Entry>): (r: seq<nat>)
    ensures |r| <= |s|
    ensures forall i :: 0 <= i < |r| ==> r[i] < |s| && !Removable(o, s[r[i]].tag)
  {
    if s == [] then [] else Kept(o, s, 0, 0, LastIndex(s))
  }

  /** The kept entries in their new order, cleaned, and nulls behind them. */
  ghost predicate Compacted(o: Options, was: seq<Entry>, d: seq<Entry>) {
    && |d| == |was|
    && (forall i :: 0 <= i < |KeptIndices(o, was)| ==> d[i] == Clean(o, was[KeptIndices(o, was)[i]]))
    && (forall i :: |KeptIndices(o, was)| <= i < |d| ==> d[i].tag == DT_NULL)
  }

  method LastNonNull(d: array<Entry>) returns (last: u32)
    requires 1 <= d.Length < U32_LIMIT
    ensures last < d.Length && last == LastIndex(d[..])
    ensures forall k :: last < k < d.Length ==> d[k].tag == DT_NULL
    ensures last > 0 ==> d[last].tag != DT_NULL
  {
    var j := d.Length - 1;
    while j > 0
      invariant 0 <= j < d.Length
      invariant forall k :: j < k < d.Length ==> d[k].tag == DT_NULL
    {
      if d[j].tag != DT_NULL {
        LastIndexIs(d[..], j);
        return j;
      }
      j := j - 1;
    }
    last := 0;
    LastIndexIs(d[..], 0);
  }

  /** What the main loop keeps; l is the second index as a number that may be -1. */
  ghost predicate LoopInv(o: Options, was: seq<Entry>, d: seq<Entry>, j: nat, l: int) {
    && |d| == |was| && j <= |d| && -1 <= l < |d|
    && multiset(CleanAll(o, d)) == multiset(CleanAll(o, was))
    && (forall k :: 0 <= k < j ==> Clean(o, d[k]) == d[k])
    && (forall k :: l < k < |d| ==> d[k].tag == DT_NULL)
    && (Dense(was) ==> (forall k :: 0 <= k <= l ==> d[k].tag != DT_NULL) || (l == 0 && d[0].tag == DT_NULL))
  }

  /** What the entries before position j are made from, and what is still to come. */
  ghost predicate PlaceInv(o: Options, was: seq<Entry>, d: seq<Entry>, j: nat, l: int, c: nat, placed: seq<nat>) {
    && |d| == |was| && -1 <= l < |was|
    && (forall k :: l < k < |d| ==> d[k].tag == DT_NULL)
    && (forall i :: 0 <= i < |placed| ==> i < |d| && placed[i] < |was| && d[i] == Clean(o, was[placed[i]]))
    && if j <= l then
         && |placed| == j && c < |was| && d[j] == was[c]
         && (forall k :: j < k <= l ==> d[k] == was[k])
         && placed + Kept(o, was, j, c, l) == KeptIndices(o, was)
       else |placed| == l + 1 && placed == KeptIndices(o, was)
  }

  lemma PlaceOnRemoval(o: Options, was: seq<Entry>, d: seq<Entry>, j: nat, l: int, c: nat, placed: seq<nat>)
    requires PlaceInv(o, was, d, j, l, c, placed) && j <= l && Removable(o, d[j].tag)
    ensures PlaceInv(o, was, Swapped(d[j := d[j].(tag := DT_NULL)], j, l), j, l - 1, l, placed)
  {
    hide Removable, KeptIndices, Clean;
  }

  lemma CleanIsNullOnly(o: Options, e: Entry)
    ensures e.tag == DT_NULL ==> Clean(o, e).tag == DT_NULL
  {
    NullIsKept(o);
  }

  lemma PlaceOnKeeping(o: Options, was: seq<Entry>, d: seq<Entry>, j: nat, l: int, c: nat, placed: seq<nat>)
    requires PlaceInv(o, was, d, j, l, c, placed) && j < |d| && !Removable(o, d[j].tag)
    ensures PlaceInv(o, was, d[j := Clean(o, d[j])], j + 1, l, j + 1, if j <= l then placed + [c] else placed)
  {
    hide Removable, KeptIndices, Clean;
    CleanIsNullOnly(o, d[j]);
    if j <= l {
      assert placed + ([c] + Kept(o, was, j + 1, j + 1, l)) == (placed + [c]) + Kept(o, was, j + 1, j + 1, l);
    }
  }

  lemma RemoveStep(o: Options, was: seq<Entry>, d: seq<Entry>, j: nat, l: int)
    requires LoopInv(o, was, d, j, l) && j < |d| && Removable(o, d[j].tag)
    ensures j <= l
    ensures LoopInv(o, was, Swapped(d[j := d[j].(tag := DT_NULL)], j, l), j, l - 1)
  {
    hide Removable;
    NullIsKept(o);
    var e := d[j].(tag := DT_NULL);
    var t := d[j := e];
    var next := Swapped(t, j, l);
    CleanAllAfterChange(o, d, j, e);
    CleanAllAfterSwap(o, t, j, l);
  }

  lemma NullIsKept(o: Options)
    ensures !Removable(o, DT_NULL)
  {
  }

  lemma KeepStep(o: Options, was: seq<Entry>, d: seq<Entry>, j: nat, l: int)
    requires LoopInv(o, was, d, j, l) && j < |d| && !Removable(o, d[j].tag)
    ensures LoopInv(o, was, d[j := Clean(o, d[j])], j + 1, l)
  {
    hide Removable;
    CleanIsFinal(o, d[j]);
    CleanAllAfterChange(o, d, j, Clean(o, d[j]));
  }

  /** The dynamic section loop of `process_elf`, outside of a dry run. Entries are only moved, tagged
      and masked as `Clean` says; those that were to go, and whatever was null before, are at the
      end; and nothing that a loader saw is lost to it, if it saw everything before. */
  method CleanDynamicSection(d: array<Entry>, o: Options)
    requires 1 <= d.Length < U32_LIMIT
    modifies d
    ensures multiset(d[..]) == multiset(CleanAll(o, old(d[..])))
    ensures forall k :: 0 <= k < d.Length ==> !Removable(o, d[k].tag) && Clean(o, d[k]) == d[k]
    ensures Dense(old(d[..])) ==> Dense(d[..])
    ensures Compacted(o, old(d[..]), d[..])
  {
    hide Removable, Clean, LoopInv, PlaceInv, Kept, KeptIndices, Increment, Decrement, Swapped;
    ghost var was := d[..];
    var n: u32 := d.Length;
    var last: u32 := LastNonNull(d);
    var j: u32 := 0;
    ghost var l: int := last;
    ghost var c: nat, placed: seq<nat> := 0, [];
    Begin(o, was, last);
    NothingPlaced(o, was);
    while j < n
      invariant PlaceInv(o, was, d[..], j, l, c, placed)
      invariant LoopInv(o, was, d[..], j, l) && -1 <= l < n && j <= n && last == if l < 0 then U32_LIMIT - 1 else l
      decreases n - j + l + 1
    {
      NullIsKept(o);
      ghost var s := d[..];
      assert s[j] == d[j];
      if Removable(o, d[j].tag) {
        RemoveStep(o, was, s, j, l);
        Bounds(o, was, s, j, l);
        PlaceOnRemoval(o, was, s, j, l, c, placed);
        c := l;
        Remove(d, j, last);
        j := Decrement(j);
        last := Decrement(last);
        l := l - 1;
      } else {
        KeepStep(o, was, s, j, l);
        PlaceOnKeeping(o, was, s, j, l, c, placed);
        c, placed := j + 1, if j <= l then placed + [c] else placed;
        KeptOnly(o, s[j]);
        MaskFlags(d, j, o);
      }
      j := Increment(j);
    }
    End(o, was, d[..], l);
    PlacedAll(o, was, d[..], l, c, placed);
  }

  lemma PlacedAll(o: Options, was: seq<Entry>, d: seq<Entry>, l: int, c: nat, placed: seq<nat>)
    requires PlaceInv(o, was, d, |d|, l, c, placed)
    ensures Compacted(o, was, d)
  {
    hide Removable, KeptIndices, Clean;
  }

  lemma Bounds(o: Options, was: seq<Entry>, d: seq<Entry>, j: nat, l: int)
    requires LoopInv(o, was, d, j, l)
    ensures -1 <= l < |d|
  {
  }

  function Decrement(x: u32): (r: u32)
    ensures r == if x == 0 then U32_LIMIT - 1 else x - 1
  {
    (x + U32_LIMIT - 1) % U32_LIMIT
  }

  function Increment(x: u32): (r: u32)
    ensures r == if x == U32_LIMIT - 1 then 0 else x + 1
  {
    (x + 1) % U32_LIMIT
  }

  /** The entry is tagged with null and put last. */
  method Remove(d: array<Entry>, j: nat, last: nat)
    requires j < d.Length && last < d.Length
    modifies d
    ensures d[..] == Swapped(old(d[..])[j := old(d[j]).(tag := DT_NULL)], j, last)
  {
    d[j] := d[j].(tag := DT_NULL);
    d[j], d[last] := d[last], d[j];
  }

  method MaskFlags(d: array<Entry>, j: nat, o: Options)
    requires j < d.Length && !Removable(o, d[j].tag)
    modifies d
    ensures d[..] == old(d[..])[j := Clean(o, old(d[j]))]
  {
    hide Removable, Clean, Masked;
    KeptOnly(o, d[j]);
    if d[j].tag == DT_FLAGS_1 {
      var masked := Masked(o, d[j].value);
      if masked != d[j].value {
        d[j] := d[j].(value := masked);
      }
    }
  }

  lemma Begin(o: Options, was: seq<Entry>, last: nat)
    requires last < |was| && (forall k :: last < k < |was| ==> was[k].tag == DT_NULL)
    requires last > 0 ==> was[last].tag != DT_NULL
    ensures LoopInv(o, was, was, 0, last)
  {
    hide Removable, Clean, CleanAll;
  }

  lemma NothingPlaced(o: Options, was: seq<Entry>)
    requires was != []
    ensures PlaceInv(o, was, was, 0, LastIndex(was), 0, [])
  {
    hide Removable, Clean, LastIndex, Kept;
    assert [] + Kept(o, was, 0, 0, LastIndex(was)) == KeptIndices(o, was);
  }

  lemma KeptOnly(o: Options, e: Entry)
    requires !Removable(o, e.tag)
    ensures Clean(o, e) == if e.tag == DT_FLAGS_1 then e.(value := Masked(o, e.value)) else e
  {
  }

  lemma End(o: Options, was: seq<Entry>, d: seq<Entry>, l: int)
    requires LoopInv(o, was, d, |d|, l)
    ensures multiset(d) == multiset(CleanAll(o, was))
    ensures forall k :: 0 <= k < |d| ==> !Removable(o, d[k].tag) && Clean(o, d[k]) == d[k]
    ensures Dense(was) ==> Dense(d)
  {
    hide Removable;
    assert CleanAll(o, d) == d;
    forall k | 0 <= k < |d|
      ensures !Removable(o, d[k].tag)
    {
      CleanIsFinal(o, d[k]);
    }
  }

  /** So cleaning a section again changes nothing any more. */
  lemma CleaningIsFinal(o: Options, s: seq<Entry>, t: seq<Entry>)
    requires multiset(t) == multiset(CleanAll(o, s))
    ensures CleanAll(o, t) == t
  {
    forall k | 0 <= k < |t|
      ensures Clean(o, t[k]) == t[k]
    {
      assert t[k] in multiset(t);
      assert t[k] in CleanAll(o, s);
      var i :| 0 <= i < |s| && t[k] == Clean(o, s[i]);
      CleanIsFinal(o, s[i]);
    }
  }

  /** What a loader sees: the entries before the first null one. */
  function Visible(s: seq<Entry>): seq<Entry> {
    if s == [] || s[0].tag == DT_NULL then [] else [s[0]] + Visible(s[1..])
  }

  /** The visible ones among entries given by their indices. */
  function Seen(s: seq<Entry>, indices: seq<nat>): seq<nat>
    requires forall i :: 0 <= i < |indices| ==> indices[i] < |s|
  {
    if indices == [] || s[indices[0]].tag == DT_NULL then [] else [indices[0]] + Seen(s, indices[1..])
  }

  /** A cleaned section shows the entries it was made from, cleaned. */
  lemma {:induction false} VisibleIsSeen(o: Options, s: seq<Entry>, t: seq<Entry>, kept: seq<nat>)
    requires |kept| <= |t| && forall i :: 0 <= i < |kept| ==> kept[i] < |s|
    requires forall i :: 0 <= i < |kept| ==> t[i] == Clean(o, s[kept[i]]) && !Removable(o, s[kept[i]].tag)
    requires forall i :: |kept| <= i < |t| ==> t[i].tag == DT_NULL
    ensures |Visible(t)| == |Seen(s, kept)|
    ensures forall i :: 0 <= i < |Visible(t)| ==>
              Seen(s, kept)[i] < |s| && Visible(t)[i] == Clean(o, s[Seen(s, kept)[i]])
  {
    hide Removable;
    if kept != [] && t[0].tag != DT_NULL {
      VisibleIsSeen(o, s, t[1..], kept[1..]);
    }
  }

  /** Where the first null entry is, or the length. */
  function FirstNull(s: seq<Entry>): (p: nat)
    ensures p <= |s| && (p < |s| ==> s[p].tag == DT_NULL)
    ensures forall i :: 0 <= i < p ==> s[i].tag != DT_NULL
  {
    if s == [] || s[0].tag == DT_NULL then 0 else 1 + FirstNull(s[1..])
  }

  function Range(a: nat, b: nat): (r: seq<nat>)
    requires a <= b
    ensures |r| == b - a && forall i :: 0 <= i < |r| ==> r[i] == a + i
    ensures forall x :: x in r <==> a <= x < b
  {
    if a == b then [] else Range(a, b - 1) + [b - 1]
  }

  lemma {:induction false} SeenOfRange(s: seq<Entry>, a: nat, b: nat, rest: seq<nat>)
    requires a <= b <= |s| && forall i :: a <= i < b ==> s[i].tag != DT_NULL
    requires forall i :: 0 <= i < |rest| ==> rest[i] < |s|
    ensures Seen(s, Range(a, b) + rest) == Range(a, b) + Seen(s, rest)
    decreases b - a
  {
    var all := Range(a, b) + rest;
    if a < b {
      assert all[1..] == Range(a + 1, b) + rest;
      SeenOfRange(s, a + 1, b, rest);
    } else {
      assert all == rest;
    }
  }

  /** Entries that stay, stay where they are. */
  lemma {:induction false} KeptInPlace(o: Options, s: seq<Entry>, j: nat, q: nat, l: int)
    requires j <= q <= l + 1 && l < |s|
    requires forall i :: j <= i < q ==> !Removable(o, s[i].tag)
    ensures Kept(o, s, j, j, l) == Range(j, q) + Kept(o, s, q, q, l)
    decreases q - j
  {
    hide Removable;
    if j < q {
      KeptInPlace(o, s, j + 1, q, l);
      assert Range(j, q) == [j] + Range(j + 1, q);
    }
  }

  /** For one that goes, the last that stays is put in. */
  lemma {:induction false} KeptFromBehind(o: Options, s: seq<Entry>, j: nat, c: nat, l: nat, m: nat)
    requires j < m <= l < |s| && c < |s| && Removable(o, s[c].tag)
    requires !Removable(o, s[m].tag) && forall i :: m < i <= l ==> Removable(o, s[i].tag)
    ensures Kept(o, s, j, c, l) == [m] + Kept(o, s, j + 1, j + 1, m - 1)
    decreases l
  {
    hide Removable;
    if m < l {
      KeptFromBehind(o, s, j, l, l - 1, m);
    }
  }

  /** The entries kept are those that stay, each once. */
  lemma {:induction false} KeptOnce(o: Options, s: seq<Entry>, j: nat, c: nat, l: nat)
    requires j <= l < |s| && c < |s| && (c == j || l < c)
    ensures var kept := Kept(o, s, j, c, l);
            && (forall x :: x in kept <==> (x == c || j < x <= l) && !Removable(o, s[x].tag))
            && Distinct(kept)
    decreases l - j
  {
    hide Removable;
    if Removable(o, s[c].tag) {
      if j < l {
        KeptOnce(o, s, j, l, l - 1);
      }
    } else if j < l {
      KeptOnce(o, s, j + 1, j + 1, l);
      OneMore(c, Kept(o, s, j + 1, j + 1, l));
    }
  }

  ghost predicate Distinct(s: seq<nat>) {
    forall i, k :: 0 <= i < k < |s| ==> s[i] != s[k]
  }

  lemma OneMore(c: nat, s: seq<nat>)
    requires c !in s && Distinct(s)
    ensures Distinct([c] + s) && forall x :: x in [c] + s <==> x == c || x in s
  {
  }

  /** The loader sees the entries it saw before, but for those that had to go. */
  ghost predicate LoaderKeeps(o: Options, s: seq<Entry>) {
    var seen := Seen(s, KeptIndices(o, s));
    forall x: nat :: x in seen <==> x < FirstNull(s) && !Removable(o, s[x].tag)
  }

  /** Nothing visible goes; or nothing is hidden; or the visible entries that go are the last
      visible ones, and no entry that stays comes after the last null one. */
  ghost predicate NothingComesForward(o: Options, s: seq<Entry>) {
    var p := FirstNull(s);
    || (forall i :: 0 <= i < p ==> !Removable(o, s[i].tag))
    || (forall i :: p <= i < |s| ==> s[i].tag == DT_NULL)
    || ((forall i, k :: 0 <= i < k < p && Removable(o, s[i].tag) ==> Removable(o, s[k].tag))
        && exists m: nat :: LastStays(o, s, m) && s[m].tag == DT_NULL)
  }

  /** Of the entries up to the last that is not null, entry m is the last that stays. */
  ghost predicate LastStays(o: Options, s: seq<Entry>, m: nat) {
    && m <= LastIndex(s) < |s|
    && !Removable(o, s[m].tag)
    && forall i :: m < i <= LastIndex(s) ==> Removable(o, s[i].tag)
  }

  lemma FirstNullByLast(s: seq<Entry>)
    requires s != []
    ensures FirstNull(s) <= LastIndex(s) + 1
  {
    var next := LastIndex(s) + 1;
    assert next < |s| ==> s[next].tag == DT_NULL;
  }

  lemma NothingGoes(o: Options, s: seq<Entry>)
    requires s != [] && forall i :: 0 <= i < FirstNull(s) ==> !Removable(o, s[i].tag)
    ensures LoaderKeeps(o, s)
  {
    hide Removable;
    var p, last := FirstNull(s), LastIndex(s);
    FirstNullByLast(s);
    KeptInPlace(o, s, 0, p, last);
    NullIsKept(o);
    SeenOfRange(s, 0, p, Kept(o, s, p, p, last));
  }

  lemma AllSeen(s: seq<Entry>, indices: seq<nat>)
    requires forall i :: 0 <= i < |indices| ==> indices[i] < |s| && s[indices[i]].tag != DT_NULL
    ensures Seen(s, indices) == indices
  {
  }

  lemma NothingHidden(o: Options, s: seq<Entry>)
    requires s != [] && forall i :: FirstNull(s) <= i < |s| ==> s[i].tag == DT_NULL
    ensures LoaderKeeps(o, s)
  {
    hide Removable;
    var p, last := FirstNull(s), LastIndex(s);
    NullIsKept(o);
    FirstNullByLast(s);
    if p == 0 {
      NothingGoes(o, s);
    } else {
      KeptOnce(o, s, 0, 0, last);
      AllSeen(s, KeptIndices(o, s));
    }
  }

  /** The first that goes, before the first null one, makes room for the last that stays. */
  lemma RoomForLast(o: Options, s: seq<Entry>, j: nat, m: nat)
    requires j < FirstNull(s) < LastIndex(s) < |s| && Removable(o, s[j].tag) && LastStays(o, s, m)
    requires forall i :: 0 <= i < j ==> !Removable(o, s[i].tag)
    ensures FirstNull(s) <= m
    ensures Seen(s, KeptIndices(o, s)) ==
            Range(0, j) + Seen(s, [m] + Kept(o, s, j + 1, j + 1, m - 1))
  {
    hide Removable;
    NullIsKept(o);
    var last := LastIndex(s);
    assert FirstNull(s) <= m;
    KeptInPlace(o, s, 0, j, last);
    KeptFromBehind(o, s, j, j, last, m);
    SeenOfRange(s, 0, j, Kept(o, s, j, j, last));
  }

  lemma {:induction false} FirstToGo(o: Options, s: seq<Entry>, n: nat) returns (j: nat)
    requires n <= |s| && exists i :: 0 <= i < n && Removable(o, s[i].tag)
    ensures j < n && Removable(o, s[j].tag) && forall i :: 0 <= i < j ==> !Removable(o, s[i].tag)
  {
    hide Removable;
    j := n - 1;
    if i :| 0 <= i < n - 1 && Removable(o, s[i].tag) {
      j := FirstToGo(o, s, n - 1);
    }
  }

  lemma {:induction false} LastToStay(o: Options, s: seq<Entry>, p: nat, l: nat) returns (m: nat)
    requires p <= l < |s| && !Removable(o, s[p].tag)
    ensures p <= m <= l && !Removable(o, s[m].tag) && forall i :: m < i <= l ==> Removable(o, s[i].tag)
  {
    hide Removable;
    m := l;
    if Removable(o, s[l].tag) {
      m := LastToStay(o, s, p, l - 1);
    }
  }

  /** Entries go before the first null one, from j on, and others stand behind it. */
  ghost predicate GoesFrom(o: Options, s: seq<Entry>, j: nat, m: nat) {
    && j < FirstNull(s) < LastIndex(s) < |s| && FirstNull(s) <= m
    && Removable(o, s[j].tag) && (forall i :: 0 <= i < j ==> !Removable(o, s[i].tag))
    && LastStays(o, s, m)
  }

  lemma ConditionAt(o: Options, s: seq<Entry>, j: nat, m: nat)
    requires GoesFrom(o, s, j, m)
    ensures NothingComesForward(o, s) <==>
            s[m].tag == DT_NULL && forall i :: j <= i < FirstNull(s) ==> Removable(o, s[i].tag)
  {
    hide Removable, FirstNull, LastIndex;
    assert s[LastIndex(s)].tag != DT_NULL;
    assert forall n: nat :: LastStays(o, s, n) ==> n == m;
    if forall i :: j <= i < FirstNull(s) ==> Removable(o, s[i].tag) {
      assert forall i, k :: 0 <= i < k < FirstNull(s) && Removable(o, s[i].tag) ==> Removable(o, s[k].tag);
    }
  }

  lemma LoaderAt(o: Options, s: seq<Entry>, j: nat, m: nat)
    requires GoesFrom(o, s, j, m)
    ensures LoaderKeeps(o, s) <==>
            s[m].tag == DT_NULL && forall i :: j <= i < FirstNull(s) ==> Removable(o, s[i].tag)
  {
    hide Removable, FirstNull, LastIndex, Kept, KeptIndices;
    RoomForLast(o, s, j, m);
    var seen := Seen(s, KeptIndices(o, s));
    if s[m].tag == DT_NULL {
      assert seen == Range(0, j);
    } else {
      assert seen[j] == m && m in seen;
      assert s[FirstNull(s)].tag == DT_NULL;
    }
  }

  /** The loader sees the entries it saw before, but for those that had to go, if and only if nothing
      that was hidden behind a null entry takes the place of one of them. */
  lemma LoaderSeesTheRest(o: Options, s: seq<Entry>, t: seq<Entry>)
    requires s != [] && Compacted(o, s, t)
    ensures var seen := Seen(s, KeptIndices(o, s));
            && |Visible(t)| == |seen|
            && forall i :: 0 <= i < |seen| ==> seen[i] < |s| && Visible(t)[i] == Clean(o, s[seen[i]])
    ensures LoaderKeeps(o, s) <==> NothingComesForward(o, s)
  {
    hide Removable, LoaderKeeps;
    VisibleIsSeen(o, s, t, KeptIndices(o, s));
    LoaderCondition(o, s);
  }

  lemma LoaderCondition(o: Options, s: seq<Entry>)
    requires s != []
    ensures LoaderKeeps(o, s) <==> NothingComesForward(o, s)
  {
    hide Removable, LoaderKeeps;
    var p := FirstNull(s);
    if forall i :: 0 <= i < p ==> !Removable(o, s[i].tag) {
      NothingGoes(o, s);
    } else if forall i :: p <= i < |s| ==> s[i].tag == DT_NULL {
      NothingHidden(o, s);
    } else {
      NullIsKept(o);
      var j := FirstToGo(o, s, p);
      var m := LastToStay(o, s, p, LastIndex(s));
      ConditionAt(o, s, j, m);
      LoaderAt(o, s, j, m);
    }
  }

  /** It does happen: an entry behind the null one is exchanged with the first one, which hides the
      one between (tag 1 names a needed library); or it is itself seen where it was not before. */
  lemma EntriesAreLost(o: Options, a: Entry)
    requires o.apiLevel < 23 && a.tag == 1
    ensures var lost := [Entry(DT_GNU_HASH, 0), a, Entry(DT_NULL, 0), Entry(DT_GNU_HASH, 0)];
            !LoaderKeeps(o, lost) && Seen(lost, KeptIndices(o, lost)) == []
    ensures !LoaderKeeps(o, [Entry(DT_GNU_HASH, 0), a, Entry(DT_NULL, 0), a])
  {
    var lost := [Entry(DT_GNU_HASH, 0), a, Entry(DT_NULL, 0), Entry(DT_GNU_HASH, 0)];
    assert lost[0].tag != DT_NULL && lost[1].tag != DT_NULL && lost[2].tag == DT_NULL && lost[3].tag != DT_NULL;
    var p := FirstNull(lost);
    assert p == 2 && LastIndex(lost) == 3 && !Removable(o, lost[1].tag) && !Removable(o, lost[2].tag);
    assert LastStays(o, lost, 2) && Removable(o, lost[0].tag);
    RoomForLast(o, lost, 0, 2);
    LoaderCondition(o, lost);
    ComesForward(o, a);
  }

  lemma ComesForward(o: Options, a: Entry)
    requires o.apiLevel < 23 && a.tag == 1
    ensures !LoaderKeeps(o, [Entry(DT_GNU_HASH, 0), a, Entry(DT_NULL, 0), a])
  {
    var s := [Entry(DT_GNU_HASH, 0), a, Entry(DT_NULL, 0), a];
    assert s[0].tag != DT_NULL && s[1].tag != DT_NULL && s[2].tag == DT_NULL && s[3].tag != DT_NULL;
    var p := FirstNull(s);
    assert p == 2 && Removable(o, s[0].tag) && !Removable(o, s[1].tag);
    LoaderCondition(o, s);
  }
}
