/** `extract_axis_names`: the axis entries of every array object of a PDS4 label, already parsed from
    the XML, are cleaned, ordered by `sequence_number`, and the best-fitting candidate's names are
    chosen. */
module AxisLabels {
  import opened Outcomes
  import opened Text
  import opened AxisMatch
  import opened Seqs

  /** One `Axis_Array` element: its `sequence_number` and `elements` when present and integral, and
      the text of its `axis_name` (empty when the element is missing or has no text). */
  datatype AxisEntry = AxisEntry(sequence: Option<int>, rawName: string, elements: Option<int>)

  /** The sort key `(sequence is None, sequence)`: numbered entries by number, unnumbered ones after. */
  predicate KeyLe(a: Option<int>, b: Option<int>) {
    match (a, b)
    case (Some(x), Some(y)) => x <= y
    case (Some(_), None) => true
    case (None, Some(_)) => false
    case (None, None) => true
  }

  /** Ordered by sort key. */
  predicate Sorted(s: seq<AxisEntry>) {
    forall i, j :: 0 <= i < j < |s| ==> KeyLe(s[i].sequence, s[j].sequence)
  }

  /** The entries that carry exactly the sort key `key`, in their order. */
  function WithKey(s: seq<AxisEntry>, key: Option<int>): seq<AxisEntry> {
    if |s| == 0 then []
    else (if s[0].sequence == key then [s[0]] else []) + WithKey(s[1..], key)
  }

  /** Place `e` in front of the first entry whose key is not smaller. */
  function Insert(e: AxisEntry, s: seq<AxisEntry>): (r: seq<AxisEntry>)
    ensures |r| == |s| + 1
    ensures multiset(r) == multiset(s) + multiset{e}
  {
    if |s| == 0 then [e]
    else if KeyLe(e.sequence, s[0].sequence) then [e] + s
    else
      assert s == [s[0]] + s[1..];
      [s[0]] + Insert(e, s[1..])
  }

  /** The entries ordered by sequence number, unnumbered ones last, ties kept in label order: an
      insertion sort standing for Python's stable `list.sort` on that key. */
  function SortEntries(s: seq<AxisEntry>): (r: seq<AxisEntry>)
    ensures Sorted(r)
    ensures multiset(r) == multiset(s)
  {
    if |s| == 0 then []
    else
      var t := SortEntries(s[1..]);
      InsertSorted(s[0], t);
      assert s == [s[0]] + s[1..];
      Insert(s[0], t)
  }

  lemma {:induction false} InsertSorted(e: AxisEntry, s: seq<AxisEntry>)
    requires Sorted(s)
    ensures Sorted(Insert(e, s))
    ensures |s| > 0 ==> Insert(e, s)[0] == e || Insert(e, s)[0] == s[0]
  {
    if |s| > 0 && !KeyLe(e.sequence, s[0].sequence) {
      var t := Insert(e, s[1..]);
      InsertSorted(e, s[1..]);
      assert KeyLe(s[0].sequence, t[0].sequence);
      SortedCons(s[0], t);
    }
  }

  /** An entry whose key is at most the first key of a sorted sequence can go in front of it. */
  lemma SortedCons(e: AxisEntry, s: seq<AxisEntry>)
    requires Sorted(s) && (|s| > 0 ==> KeyLe(e.sequence, s[0].sequence))
    ensures Sorted([e] + s)
  {
    forall j | 0 < j < |s| + 1
      ensures KeyLe(e.sequence, ([e] + s)[j].sequence)
    {
      assert KeyLe(s[0].sequence, s[j - 1].sequence);
    }
  }

  lemma {:induction false} InsertKeepsKeyOrder(e: AxisEntry, s: seq<AxisEntry>, key: Option<int>)
    ensures WithKey(Insert(e, s), key) == (if e.sequence == key then [e] else []) + WithKey(s, key)
  {
    if |s| == 0 {
    } else if KeyLe(e.sequence, s[0].sequence) {
      assert Insert(e, s)[1..] == s;
    } else {
      InsertKeepsKeyOrder(e, s[1..], key);
      assert Insert(e, s)[1..] == Insert(e, s[1..]);
    }
  }

  lemma {:induction false} SortEntriesKeepsKeyOrder(s: seq<AxisEntry>, key: Option<int>)
    ensures WithKey(SortEntries(s), key) == WithKey(s, key)
  {
    if |s| > 0 {
      SortEntriesKeepsKeyOrder(s[1..], key);
      InsertKeepsKeyOrder(s[0], SortEntries(s[1..]), key);
    }
  }

  /** The sort is a stable sort: its result is ordered by key, is a rearrangement of the input, and
      keeps the entries of each key in their label order; unnumbered entries all come last. */
  lemma SortEntriesIsStableSort(s: seq<AxisEntry>)
    ensures Sorted(SortEntries(s))
    ensures multiset(SortEntries(s)) == multiset(s)
    ensures forall key :: WithKey(SortEntries(s), key) == WithKey(s, key)
    ensures forall i, j :: 0 <= i < j < |SortEntries(s)| && SortEntries(s)[i].sequence.None?
              ==> SortEntries(s)[j].sequence.None?
  {
    forall key
      ensures WithKey(SortEntries(s), key) == WithKey(s, key)
    {
      SortEntriesKeepsKeyOrder(s, key);
    }
  }

  /** The entries of one array object that are kept, those with a non-empty name, with their names
      stripped. */
  function Clean(entries: seq<AxisEntry>): (r: seq<AxisEntry>)
    ensures |r| <= |entries|
    ensures (forall j :: 0 <= j < |entries| ==> entries[j].rawName != "") ==> |r| == |entries|
    ensures (forall j :: 0 <= j < |entries| ==> entries[j].rawName == "") ==> r == []
  {
    if |entries| == 0 then []
    else
      var rest := Clean(entries[1..]);
      if entries[0].rawName == "" then rest
      else [Stripped(entries[0])] + rest
  }

  /** An entry as it is kept: its name stripped of surrounding whitespace. */
  function Stripped(e: AxisEntry): (r: AxisEntry)
    ensures r.sequence == e.sequence && r.elements == e.elements
  {
    e.(rawName := Strip(e.rawName))
  }

  /** `e` is the stripped form of some entry of `entries` with a non-empty name. */
  predicate FromNamed(entries: seq<AxisEntry>, e: AxisEntry) {
    exists j :: 0 <= j < |entries| && entries[j].rawName != "" && e == Stripped(entries[j])
  }

  /** A named entry of the tail is a named entry of the whole. */
  lemma FromNamedTail(entries: seq<AxisEntry>, e: AxisEntry)
    requires |entries| > 0 && FromNamed(entries[1..], e)
    ensures FromNamed(entries, e)
  {
    var j :| 0 <= j < |entries[1..]| && entries[1..][j].rawName != "" && e == Stripped(entries[1..][j]);
    assert entries[j + 1] == entries[1..][j];
  }

  /** Every entry `Clean` keeps is the stripped form of an entry with a non-empty name. */
  lemma {:induction false} CleanKeepsOnlyNamed(entries: seq<AxisEntry>)
    ensures forall k :: 0 <= k < |Clean(entries)| ==> FromNamed(entries, Clean(entries)[k])
  {
    if |entries| > 0 {
      var rest := entries[1..];
      CleanKeepsOnlyNamed(rest);
      var r := Clean(entries);
      var cr := Clean(rest);
      var named := entries[0].rawName != "";
      assert r == if named then [Stripped(entries[0])] + cr else cr;
      forall k | 0 <= k < |r|
        ensures FromNamed(entries, r[k])
      {
        if named && k == 0 {
          assert r[0] == Stripped(entries[0]);
        } else {
          FromNamedTail(entries, r[k]);
        }
      }
    }
  }

  /** Every entry with a non-empty name is kept by `Clean`, stripped. */
  lemma {:induction false} CleanKeepsEveryNamed(entries: seq<AxisEntry>)
    ensures forall j :: 0 <= j < |entries| && entries[j].rawName != "" ==> Stripped(entries[j]) in Clean(entries)
  {
    if |entries| > 0 {
      var rest := entries[1..];
      CleanKeepsEveryNamed(rest);
      var r := Clean(entries);
      var cr := Clean(rest);
      assert forall x :: x in cr ==> x in r;
      forall j | 0 <= j < |entries| && entries[j].rawName != ""
        ensures Stripped(entries[j]) in r
      {
        if j > 0 {
          assert entries[j] == rest[j - 1];
        }
      }
    }
  }

  /** The `(names, lengths)` candidate of one array object, or `None` when it has no usable axis. */
  function Candidate(entries: seq<AxisEntry>): (r: Option<seq<Axis>>)
    ensures r.Some? ==> |r.value| > 0
  {
    var kept := Clean(entries);
    if |kept| == 0 then None
    else
      var sorted := SortEntries(kept);
      Some(seq(|sorted|, i requires 0 <= i < |sorted| => Axis(sorted[i].rawName, sorted[i].elements)))
  }

  /** The candidates of all array objects. `arrays` holds the array objects tag by tag, in the order
      of the array element tags, and in document order within one tag. */
  function Candidates(arrays: seq<seq<AxisEntry>>): (r: seq<seq<Axis>>)
    ensures |r| <= |arrays|
    ensures forall i :: 0 <= i < |r| ==> |r[i]| > 0
  {
    if |arrays| == 0 then []
    else match Candidate(arrays[0])
      case None => Candidates(arrays[1..])
      case Some(c) => [c] + Candidates(arrays[1..])
  }

  /** `Clean` filters and strips entry by entry: it distributes over concatenation, so the kept
      entries stay in label order. */
  lemma {:induction false} CleanKeepsOrder(a: seq<AxisEntry>, b: seq<AxisEntry>)
    ensures Clean(a + b) == Clean(a) + Clean(b)
  {
    if |a| == 0 {
      assert a + b == b;
    } else {
      CleanKeepsOrder(a[1..], b);
      var head := if a[0].rawName == "" then [] else [Stripped(a[0])];
      TailOfConcat(a, b);
      ConcatAssoc(head, Clean(a[1..]), Clean(b));
    }
  }

  /** A single entry is kept, stripped, exactly when its name is not empty. */
  lemma CleanSingle(e: AxisEntry)
    ensures Clean([e]) == if e.rawName == "" then [] else [Stripped(e)]
  {
    assert [e][1..] == [];
  }

  /** An array object gives no candidate exactly when none of its axes has a name; otherwise the
      candidate lists the cleaned entries in sorted order, one axis per entry. */
  lemma CandidateOfSortedEntries(entries: seq<AxisEntry>)
    ensures Candidate(entries).None? <==> forall j :: 0 <= j < |entries| ==> entries[j].rawName == ""
    ensures Candidate(entries).None? <==> Clean(entries) == []
    ensures Candidate(entries).Some? ==>
              var sorted := SortEntries(Clean(entries));
              && |Candidate(entries).value| == |sorted| == |Clean(entries)|
              && forall i :: 0 <= i < |sorted| ==>
                   Candidate(entries).value[i] == Axis(sorted[i].rawName, sorted[i].elements)
  {
    CleanKeepsEveryNamed(entries);
  }

  /** `Candidates` takes the array objects one by one: it distributes over concatenation, so the
      candidates stay in the order of their array objects. */
  lemma {:induction false} CandidatesKeepOrder(a: seq<seq<AxisEntry>>, b: seq<seq<AxisEntry>>)
    ensures Candidates(a + b) == Candidates(a) + Candidates(b)
  {
    if |a| == 0 {
      assert a + b == b;
    } else {
      CandidatesKeepOrder(a[1..], b);
      var head := if Candidate(a[0]).Some? then [Candidate(a[0]).value] else [];
      TailOfConcat(a, b);
      ConcatAssoc(head, Candidates(a[1..]), Candidates(b));
    }
  }

  /** A single array object contributes its candidate exactly when it has one. */
  lemma CandidatesSingle(entries: seq<AxisEntry>)
    ensures Candidates([entries]) == if Candidate(entries).Some? then [Candidate(entries).value] else []
  {
    assert [entries][1..] == [];
  }

  /** Python's `if matched:`: a match that is a non-empty list. */
  predicate Fitted(m: Option<seq<string>>) {
    m.Some? && |m.value| > 0
  }

  /** `extract_axis_names(label, target_shape)` on the label's parsed array objects. */
  function ExtractAxisNames(arrays: seq<seq<AxisEntry>>, target: Option<seq<int>>): (r: seq<string>)
    ensures var cs := Candidates(arrays);
      forall i :: 0 <= i < |cs| && target.Some? && Fitted(MatchAxisOrder(cs[i], target.value))
        && (forall j :: 0 <= j < i ==> !Fitted(MatchAxisOrder(cs[j], target.value)))
        ==> r == MatchAxisOrder(cs[i], target.value).value
    ensures var cs := Candidates(arrays);
      (|cs| > 0 && (target.None? || forall j :: 0 <= j < |cs| ==> !Fitted(MatchAxisOrder(cs[j], target.value))))
      ==> r == Names(cs[0])
    ensures |Candidates(arrays)| == 0 ==> r == []
  {
    var candidates := Candidates(arrays);
    if |candidates| == 0 then []
    else if target.Some? then
      match FirstIndex(candidates, c => Fitted(MatchAxisOrder(c, target.value)))
      case Some(i) => MatchAxisOrder(candidates[i], target.value).value
      case None => Names(candidates[0])
    else Names(candidates[0])
  }

  /** The names of a candidate's axes, in order. */
  function Names(axes: seq<Axis>): (r: seq<string>)
    ensures |r| == |axes| && forall i :: 0 <= i < |axes| ==> r[i] == axes[i].name
  {
    seq(|axes|, i requires 0 <= i < |axes| => axes[i].name)
  }
}
