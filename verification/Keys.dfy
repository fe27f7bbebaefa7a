/** Bulk keys and their lookup by ID (elliptics/key.h, elliptics/key.go, elliptics/key.cpp). */
module Keys {
  import opened Machine
  import opened Bytes
  import Sorting

  /** A key created from its name; its ID is what the session's transform makes of the name. */
  datatype Key = Key(name: ByteString, id: ByteString)

  /** `std::lower_bound` over `kk[first .. first + len]` with the ID comparator. */
  function LowerBound(kk: seq<Key>, id: ByteString, first: nat, len: nat): (r: nat)
    requires first + len <= |kk|
    ensures first <= r <= first + len
    decreases len
  {
    if len == 0 then first
    else
      var half := len / 2;
      if Less(kk[first + half].id, id) then LowerBound(kk, id, first + half + 1, len - half - 1)
      else LowerBound(kk, id, first, half)
  }

  /** What a C string keeps of a name: everything before the first zero byte. */
  function Cut(name: ByteString): ByteString
  {
    if name == [] || name[0] == 0 then [] else [name[0]] + Cut(name[1..])
  }

  /** The cut is harmless exactly for names without a zero byte. */
  lemma {:induction false} CutKeepsIff(name: ByteString)
    ensures 0 !in Cut(name) && Cut(name) <= name
    ensures Cut(name) == name <==> 0 !in name
  {
    if name != [] && name[0] != 0 {
      CutKeepsIff(name[1..]);
      assert name == [name[0]] + name[1..];
    }
  }

  /**
   `ell_keys_find`: the name at the lower bound, handed back as a C string; nothing at the end of the vector or for an
   empty name.
   */
  function Find(kk: seq<Key>, id: ByteString): Option<ByteString>
  {
    var i := LowerBound(kk, id, 0, |kk|);
    if i < |kk| && kk[i].name != [] then Some(Cut(kk[i].name)) else None
  }

  /** The search as a loop. */
  method Search(kk: seq<Key>, id: ByteString) returns (r: nat)
    ensures r == LowerBound(kk, id, 0, |kk|)
  {
    var first: nat, len: nat := 0, |kk|;
    while len > 0
      invariant first + len <= |kk|
      invariant LowerBound(kk, id, first, len) == LowerBound(kk, id, 0, |kk|)
    {
      var half := len / 2;
      var middle := first + half;
      if Less(kk[middle].id, id) {
        first := middle + 1;
        len := len - half - 1;
      } else {
        len := half;
      }
    }
    r := first;
  }

  class EllKeys {
    var kk: seq<Key>

    constructor ()
      ensures kk == []
    {
      kk := [];
    }

    method Insert(key: Key)
      modifies this
      ensures kk == old(kk) + [key]
    {
      kk := kk + [key];
    }

    /** `it->transform(*session)` for every key, as bulk read and bulk remove do before their request. */
    method TransformAll(transform: ByteString -> ByteString)
      modifies this
      ensures kk == KeysOf(NamesOf(old(kk)), transform)
    {
      var done: seq<Key> := [];
      for i := 0 to |kk|
        invariant kk == old(kk)
        invariant done == KeysOf(NamesOf(kk[..i]), transform)
      {
        done := done + [Key(kk[i].name, transform(kk[i].name))];
        assert kk[..i + 1] == kk[..i] + [kk[i]];
      }
      assert kk[..|kk|] == kk;
      kk := done;
    }
  }

  ghost function NamesOf(kk: seq<Key>): seq<ByteString>
  {
    seq(|kk|, i requires 0 <= i < |kk| => kk[i].name)
  }

  ghost function KeysOf(names: seq<ByteString>, transform: ByteString -> ByteString): seq<Key>
  {
    seq(|names|, i requires 0 <= i < |names| => Key(names[i], transform(names[i])))
  }

  /** `NewKeys`: sorts the caller's names in place, as strings, and makes keys that all still have the library's blank ID. */
  method NewKeys(names: array<ByteString>, blank: ByteString) returns (keys: EllKeys)
    modifies names
    ensures names[..] == Sorting.Sort(old(names[..]), AtMost)
    ensures fresh(keys) && keys.kk == KeysOf(names[..], _ => blank)
  {
    SortStrings(names);
    keys := new EllKeys();
    for i := 0 to names.Length
      invariant fresh(keys) && names[..] == Sorting.Sort(old(names[..]), AtMost)
      invariant keys.kk == KeysOf(names[..i], _ => blank)
    {
      keys.Insert(Key(names[i], blank));
      assert names[..i + 1] == names[..i] + [names[i]];
    }
    assert names[..names.Length] == names[..];
  }

  /** `sort.Strings`. */
  method SortStrings(names: array<ByteString>)
    modifies names
    ensures names[..] == Sorting.Sort(old(names[..]), AtMost)
  {
    var sorted := Sorting.Sort(names[..], AtMost);
    SortedLength(names[..]);
    for i := 0 to names.Length
      invariant names[..i] == sorted[..i]
    {
      names[i] := sorted[i];
      assert names[..i + 1] == names[..i] + [sorted[i]];
    }
    assert names[..] == names[..names.Length];
  }

  lemma {:induction false} SortedLength(names: seq<ByteString>)
    ensures |Sorting.Sort(names, AtMost)| == |names|
  {
    ByteOrder();
    Sorting.SortSorts(names, AtMost);
  }

  // ---------------------------------------------------------------- when the search is right

  ghost predicate Ordered(kk: seq<Key>, first: nat, end: nat)
    requires end <= |kk|
  {
    forall i, j :: first <= i < j < end ==> Less(kk[i].id, kk[j].id)
  }

  /** Non-strict order: equal IDs may repeat. */
  ghost predicate OrderedById(kk: seq<Key>)
  {
    forall i, j :: 0 <= i < j < |kk| ==> AtMost(kk[i].id, kk[j].id)
  }

  lemma {:induction false} LessTransitive(a: ByteString, b: ByteString, c: ByteString)
    ensures AtMost(a, b) && Less(b, c) ==> Less(a, c)
    ensures Less(a, b) && AtMost(b, c) ==> Less(a, c)
    ensures Less(a, b) ==> AtMost(a, b)
    ensures !Less(a, a)
  {
    AtMostTotal(a, b);
    AtMostTotal(a, a);
    if AtMost(c, a) && AtMost(a, b) {
      AtMostTransitive(c, a, b);
    }
    if AtMost(b, c) && AtMost(c, a) {
      AtMostTransitive(b, c, a);
    }
  }

  /** In ID order the result splits the stretch into smaller IDs and the rest. */
  lemma {:induction false} LowerBoundSplits(kk: seq<Key>, id: ByteString, first: nat, len: nat)
    requires first + len <= |kk| && OrderedById(kk)
    ensures var r := LowerBound(kk, id, first, len);
            && (forall i :: first <= i < r ==> Less(kk[i].id, id))
            && (forall i :: r <= i < first + len ==> AtMost(id, kk[i].id))
    decreases len
  {
    hide Less;
    if len > 0 {
      var half := len / 2;
      var mid := first + half;
      if Less(kk[mid].id, id) {
        LowerBoundSplits(kk, id, mid + 1, len - half - 1);
        forall i | first <= i <= mid ensures Less(kk[i].id, id) {
          if i < mid {
            LessTransitive(kk[i].id, kk[mid].id, id);
          }
        }
      } else {
        LowerBoundSplits(kk, id, first, half);
        forall i | mid <= i < first + len ensures AtMost(id, kk[i].id) {
          if mid < i {
            AtMostTransitive(id, kk[mid].id, kk[i].id);
          }
        }
      }
    }
  }

  /** The linear search that `find` stands for: the first key with this very ID. */
  ghost predicate FirstWith(kk: seq<Key>, id: ByteString, i: nat)
  {
    i < |kk| && kk[i].id == id && forall j :: 0 <= j < i ==> kk[j].id != id
  }

  lemma {:induction false} FindStored(kk: seq<Key>, id: ByteString, j: nat)
    requires OrderedById(kk) && FirstWith(kk, id, j)
    ensures LowerBound(kk, id, 0, |kk|) == j
  {
    LowerBoundSplits(kk, id, 0, |kk|);
    LessTransitive(id, id, id);
    var i := LowerBound(kk, id, 0, |kk|);
    if i < j {
      AtMostAntisymmetric(id, kk[i].id);
    }
  }

  /** In strict ID order every key is found at its own place. */
  lemma {:induction false} OrderedMeansFound(kk: seq<Key>, j: nat)
    requires Ordered(kk, 0, |kk|) && j < |kk|
    ensures LowerBound(kk, kk[j].id, 0, |kk|) == j
  {
    hide Less;
    forall a, b | 0 <= a < b < |kk| ensures AtMost(kk[a].id, kk[b].id) && kk[a].id != kk[b].id {
      LessTransitive(kk[a].id, kk[b].id, kk[b].id);
      LessTransitive(kk[b].id, kk[b].id, kk[b].id);
    }
    FindStored(kk, kk[j].id, j);
  }

  lemma {:induction false} FindOther(kk: seq<Key>, id: ByteString)
    requires OrderedById(kk) && forall j :: 0 <= j < |kk| ==> kk[j].id != id
    ensures var i := LowerBound(kk, id, 0, |kk|);
            && (forall j :: 0 <= j < i ==> Less(kk[j].id, id))
            && (forall j :: i <= j < |kk| ==> Less(id, kk[j].id))
  {
    LowerBoundSplits(kk, id, 0, |kk|);
    forall j | LowerBound(kk, id, 0, |kk|) <= j < |kk| ensures Less(id, kk[j].id) {
      if AtMost(kk[j].id, id) {
        AtMostAntisymmetric(kk[j].id, id);
      }
    }
  }

  /**
   In ID order, `find` agrees with linear search for every stored ID; for any other ID it does not fail but names the
   next greater key, and it finds nothing exactly when every stored ID is smaller (or the name there is empty).
   */
  lemma {:induction false} FindInOrder(kk: seq<Key>, id: ByteString)
    requires OrderedById(kk)
    ensures var i := LowerBound(kk, id, 0, |kk|);
            && (forall j: nat :: FirstWith(kk, id, j) ==> i == j)
            && ((forall j :: 0 <= j < |kk| ==> kk[j].id != id) ==>
                  && (forall j :: 0 <= j < i ==> Less(kk[j].id, id))
                  && (forall j :: i <= j < |kk| ==> Less(id, kk[j].id)))
            && (Find(kk, id).None? <==>
                  (forall j :: 0 <= j < |kk| ==> Less(kk[j].id, id)) || (i < |kk| && kk[i].name == []))
  {
    forall j: nat | FirstWith(kk, id, j) ensures LowerBound(kk, id, 0, |kk|) == j {
      FindStored(kk, id, j);
    }
    if forall j :: 0 <= j < |kk| ==> kk[j].id != id {
      FindOther(kk, id);
    }
    LowerBoundSplits(kk, id, 0, |kk|);
  }

  /** Equal names stand together and have equal IDs, as after sorting by name and transforming. */
  ghost predicate Blocks(kk: seq<Key>)
  {
    && (forall a, b, c :: 0 <= a <= b <= c < |kk| && kk[a].name == kk[c].name ==> kk[b].name == kk[a].name)
    && (forall a, b :: 0 <= a < |kk| && 0 <= b < |kk| && kk[a].name == kk[b].name ==> kk[a].id == kk[b].id)
  }

  /** Looking up a stored ID answers the name it was stored under. */
  ghost predicate AnswersEach(kk: seq<Key>)
  {
    forall j :: 0 <= j < |kk| ==> Find(kk, kk[j].id) == Some(kk[j].name)
  }

  /** IDs strictly ascend from one name to the next. */
  ghost predicate Ascends(kk: seq<Key>)
  {
    forall i, j :: 0 <= i < j < |kk| ==> kk[i].name == kk[j].name || Less(kk[i].id, kk[j].id)
  }

  /** Key `j` does not belong to the block of names that began before `first`. */
  ghost predicate Inner(kk: seq<Key>, first: nat, j: nat)
    requires first <= j < |kk|
  {
    first == 0 || kk[first - 1].name != kk[j].name
  }

  /** A search confined to this stretch reaches the right name for each of its own keys. */
  ghost predicate Reaches(kk: seq<Key>, first: nat, len: nat)
    requires first + len <= |kk|
  {
    forall j :: first <= j < first + len && Inner(kk, first, j) ==> Lands(kk, first, len, j)
  }

  ghost predicate Lands(kk: seq<Key>, first: nat, len: nat, j: nat)
    requires first + len <= |kk| && j < |kk|
  {
    var r := LowerBound(kk, kk[j].id, first, len);
    r < |kk| && kk[r].name == kk[j].name
  }

  ghost predicate Climbs(kk: seq<Key>, first: nat, len: nat)
    requires first + len <= |kk|
  {
    forall i, j :: first <= i < j < first + len && kk[i].name != kk[j].name && Inner(kk, first, i) ==>
      Less(kk[i].id, kk[j].id)
  }

  /** Before the middle the search goes left; the middle is strictly above every other name there. */
  lemma {:induction false} LeftOfMiddle(kk: seq<Key>, first: nat, len: nat, i: nat)
    requires 0 < len && first + len <= |kk| && Blocks(kk) && Reaches(kk, first, len)
    requires first <= i < first + len / 2 && Inner(kk, first, i)
    ensures Lands(kk, first, len / 2, i)
    ensures kk[i].name != kk[first + len / 2].name ==> Less(kk[i].id, kk[first + len / 2].id)
  {
    hide Less;
    var mid := first + len / 2;
    LessTransitive(kk[mid].id, kk[i].id, kk[i].id);
    LessTransitive(kk[i].id, kk[mid].id, kk[mid].id);
    assert Lands(kk, first, len, i);
    if kk[i].name != kk[mid].name {
      assert Inner(kk, first, mid);
      assert Lands(kk, first, len, mid);
      if AtMost(kk[mid].id, kk[i].id) {
        AtMostAntisymmetric(kk[mid].id, kk[i].id);
      }
    }
  }

  /** Behind the middle, any other name has a strictly greater ID and is found on the right. */
  lemma {:induction false} RightOfMiddle(kk: seq<Key>, first: nat, len: nat, j: nat)
    requires 0 < len && first + len <= |kk| && Blocks(kk) && Reaches(kk, first, len)
    requires first + len / 2 < j < first + len && kk[j].name != kk[first + len / 2].name
    ensures Lands(kk, first + len / 2 + 1, len - len / 2 - 1, j)
    ensures Less(kk[first + len / 2].id, kk[j].id)
  {
    hide Less;
    var mid := first + len / 2;
    assert Inner(kk, first, j);
    assert Lands(kk, first, len, j);
  }

  lemma {:induction false} ReachesLeft(kk: seq<Key>, first: nat, len: nat)
    requires 0 < len && first + len <= |kk| && Blocks(kk) && Reaches(kk, first, len)
    ensures Reaches(kk, first, len / 2)
  {
    hide Less, LowerBound, Lands, Blocks;
    forall j | first <= j < first + len / 2 && Inner(kk, first, j) ensures Lands(kk, first, len / 2, j) {
      LeftOfMiddle(kk, first, len, j);
    }
  }

  lemma {:induction false} ReachesRight(kk: seq<Key>, first: nat, len: nat, next: nat, rest: nat)
    requires 0 < len && first + len <= |kk| && Blocks(kk) && Reaches(kk, first, len)
    requires next == first + len / 2 + 1 && rest == len - len / 2 - 1
    ensures Reaches(kk, next, rest)
  {
    hide Less, LowerBound, Lands, Blocks;
    forall j | next <= j < next + rest && Inner(kk, next, j) ensures Lands(kk, next, rest, j) {
      RightOfMiddle(kk, first, len, j);
    }
  }

  /** If a stretch reaches the right name for every key, names in it come in strict order of ID. */
  lemma {:induction false} ReachesMeansClimbs(kk: seq<Key>, first: nat, len: nat)
    requires first + len <= |kk| && Blocks(kk) && Reaches(kk, first, len)
    ensures Climbs(kk, first, len)
    decreases len
  {
    if len > 0 {
      hide Less, LowerBound, Lands, Blocks, Reaches;
      var next, rest := first + len / 2 + 1, len - len / 2 - 1;
      ReachesLeft(kk, first, len);
      ReachesRight(kk, first, len, next, rest);
      ReachesMeansClimbs(kk, first, len / 2);
      ReachesMeansClimbs(kk, next, rest);
      ClimbsAcrossAll(kk, first, len);
    }
  }

  lemma {:induction false} ClimbsAcrossAll(kk: seq<Key>, first: nat, len: nat)
    requires 0 < len && first + len <= |kk| && Blocks(kk) && Reaches(kk, first, len)
    requires Climbs(kk, first, len / 2) && Climbs(kk, first + len / 2 + 1, len - len / 2 - 1)
    ensures Climbs(kk, first, len)
  {
    hide Less, LowerBound, Lands, Blocks, Reaches;
    forall i, j | first <= i < j < first + len && kk[i].name != kk[j].name && Inner(kk, first, i)
      ensures Less(kk[i].id, kk[j].id)
    {
      ClimbsAcross(kk, first, len, i, j);
    }
  }

  lemma {:induction false} ClimbsAcross(kk: seq<Key>, first: nat, len: nat, i: nat, j: nat)
    requires 0 < len && first + len <= |kk| && Blocks(kk) && Reaches(kk, first, len)
    requires Climbs(kk, first, len / 2) && Climbs(kk, first + len / 2 + 1, len - len / 2 - 1)
    requires first <= i < j < first + len && kk[i].name != kk[j].name && Inner(kk, first, i)
    ensures Less(kk[i].id, kk[j].id)
  {
    hide Less, LowerBound, Lands, Reaches;
    var mid := first + len / 2;
    if j >= mid && i <= mid {
      if i < mid {
        LeftOfMiddle(kk, first, len, i);
      }
      if mid < j && kk[j].name != kk[mid].name {
        RightOfMiddle(kk, first, len, j);
      }
      LessTransitive(kk[i].id, kk[mid].id, kk[j].id);
      LessTransitive(kk[mid].id, kk[j].id, kk[j].id);
    } else if mid < i && kk[i].name == kk[mid].name {
      RightOfMiddle(kk, first, len, j);
    }
  }

  lemma {:induction false} AscendsMeansAnswers(kk: seq<Key>, j: nat)
    requires Blocks(kk) && Ascends(kk) && j < |kk|
    ensures Lands(kk, 0, |kk|, j)
  {
    hide Less;
    var id := kk[j].id;
    forall a, b | 0 <= a < b < |kk| ensures AtMost(kk[a].id, kk[b].id) {
      LessTransitive(kk[a].id, kk[b].id, kk[b].id);
      LessTransitive(kk[b].id, kk[b].id, kk[b].id);
    }
    LowerBoundSplits(kk, id, 0, |kk|);
    LessTransitive(id, id, id);
    var r := LowerBound(kk, id, 0, |kk|);
    assert r <= j;
    LessTransitive(kk[r].id, id, kk[r].id);
  }

  /** A name that a lookup can hand back: not empty and without a zero byte. */
  ghost predicate Plain(name: ByteString)
  {
    name != [] && 0 !in name
  }

  /**
   What a caller sees: every stored ID is answered with its own name if and only if no name is empty or has a zero byte
   and IDs strictly ascend from one name to the next.
   */
  lemma {:induction false} AnswersEachIff(kk: seq<Key>)
    requires Blocks(kk)
    ensures AnswersEach(kk) <==> (forall j :: 0 <= j < |kk| ==> Plain(kk[j].name)) && Ascends(kk)
  {
    hide Less, LowerBound, Cut;
    if AnswersEach(kk) {
      forall j | 0 <= j < |kk| ensures Plain(kk[j].name) && Lands(kk, 0, |kk|, j) {
        AnswerIsCut(kk, j);
        var i := LowerBound(kk, kk[j].id, 0, |kk|);
        AnswerIsCut(kk, i);
        CutKeepsIff(kk[i].name);
      }
      ReachesMeansClimbs(kk, 0, |kk|);
    }
    if (forall j :: 0 <= j < |kk| ==> Plain(kk[j].name)) && Ascends(kk) {
      forall j | 0 <= j < |kk| ensures Find(kk, kk[j].id) == Some(kk[j].name) {
        AscendsMeansAnswers(kk, j);
        CutKeepsIff(kk[j].name);
      }
    }
  }

  /** An answer comes from the key at the lower bound and has no zero byte. */
  lemma {:induction false} AnswerIsCut(kk: seq<Key>, j: nat)
    requires j < |kk| && Find(kk, kk[j].id) == Some(kk[j].name)
    ensures var i := LowerBound(kk, kk[j].id, 0, |kk|);
            i < |kk| && kk[i].name != [] && Cut(kk[i].name) == kk[j].name && 0 !in kk[j].name
  {
    hide LowerBound;
    CutKeepsIff(kk[LowerBound(kk, kk[j].id, 0, |kk|)].name);
  }

  lemma {:induction false} SortedNames(names: seq<ByteString>)
    ensures var sorted := Sorting.Sort(names, AtMost);
            && (forall x :: x in sorted <==> x in names)
            && (forall i, j :: 0 <= i < j < |sorted| ==> AtMost(sorted[i], sorted[j]))
  {
    ByteOrder();
    Sorting.SortSorts(names, AtMost);
    var sorted := Sorting.Sort(names, AtMost);
    forall x ensures x in sorted <==> x in names {
      assert x in multiset(sorted) <==> x in multiset(names);
    }
  }

  lemma {:induction false} SortedBlocks(names: seq<ByteString>, transform: ByteString -> ByteString)
    ensures Blocks(KeysOf(Sorting.Sort(names, AtMost), transform))
  {
    hide Sorting.Sort, Less;
    SortedNames(names);
    var sorted := Sorting.Sort(names, AtMost);
    var kk := KeysOf(sorted, transform);
    forall a, b, c | 0 <= a <= b <= c < |kk| && kk[a].name == kk[c].name ensures kk[b].name == kk[a].name {
      if a < b < c {
        AtMostAntisymmetric(sorted[a], sorted[b]);
      }
    }
  }

  /**
   So after `NewKeys` and the transform, every requested name is answered for its own ID if and only if no name is empty
   or has a zero byte and the transform keeps the order of different names.
   */
  lemma {:induction false} NewKeysAnswersIff(names: seq<ByteString>, transform: ByteString -> ByteString)
    ensures var sorted := Sorting.Sort(names, AtMost);
            AnswersEach(KeysOf(sorted, transform))
            <==> (forall x :: x in names ==> Plain(x))
                 && forall i, j :: 0 <= i < j < |sorted| ==>
                      sorted[i] == sorted[j] || Less(transform(sorted[i]), transform(sorted[j]))
  {
    SortedNames(names);
    SortedBlocks(names, transform);
    var sorted := Sorting.Sort(names, AtMost);
    var kk := KeysOf(sorted, transform);
    hide Sorting.Sort, Less, AnswersEach, Blocks;
    AnswersEachIff(kk);
    assert forall i :: 0 <= i < |sorted| ==> kk[i].name == sorted[i] && kk[i].id == transform(sorted[i]);
    hide Plain;
    assert (forall j :: 0 <= j < |kk| ==> Plain(kk[j].name)) <==> forall x :: x in sorted ==> Plain(x);
  }

  /**
   Keys that were never transformed, as bulk write leaves them, all have the same blank ID. A reply's ID is then
   answered with the first name, up to its first zero byte, or with none as soon as it is greater than the blank one.
   */
  lemma {:induction false} UntransformedFind(kk: seq<Key>, blank: ByteString, id: ByteString)
    requires forall i :: 0 <= i < |kk| ==> kk[i].id == blank
    ensures Find(kk, id) == if kk == [] || Less(blank, id) || kk[0].name == [] then None else Some(Cut(kk[0].name))
  {
    hide Less;
    LessTransitive(blank, blank, blank);
    assert OrderedById(kk);
    LowerBoundSplits(kk, id, 0, |kk|);
  }

  /** String order does not give ID order: with this transform, the keys of "a" and "b" answer "a" for the ID of "b". */
  lemma {:induction false} StringOrderIsNotEnough()
    ensures var transform := (name: ByteString) => if name == [97] then [2] else [1];
            var kk := KeysOf(Sorting.Sort([[97], [98]], AtMost), transform);
            Find(kk, transform([98])) == Some([97])
  {
    var transform := (name: ByteString) => if name == [97] then [2] else [1];
    assert Sorting.Sort<ByteString>([], AtMost) == [];
    assert [[97], [98]][1..] == [[98]] && [[98]][1..] == [];
    assert Sorting.Sort([[98]], AtMost) == [[98]];
    assert AtMost([97], [98]);
    assert Sorting.Sort([[97], [98]], AtMost) == [[97], [98]];
    var kk := KeysOf([[97], [98]], transform);
    assert kk[0] == Key([97], [2]) && kk[1] == Key([98], [1]);
    CutKeepsIff([97]);
    assert !Less([1], [1]) && !Less([2], [1]);
    assert LowerBound(kk, [1], 0, 2) == LowerBound(kk, [1], 0, 1) == LowerBound(kk, [1], 0, 0) == 0;
  }

  /** A single key whose name has a zero byte is answered with the bytes before it. */
  lemma {:induction false} ZeroByteIsCut(id: ByteString)
    ensures Find([Key([97, 0, 98], id)], id) == Some([97])
  {
    var kk := [Key([97, 0, 98], id)];
    LessTransitive(id, id, id);
    assert LowerBound(kk, id, 0, 0) == 0;
    assert LowerBound(kk, id, 0, 1) == 0;
    assert [97, 0, 98][1..] == [0, 98];
    assert Cut([0, 98]) == [];
    assert Cut([97, 0, 98]) == [97] + [] == [97];
  }
}
