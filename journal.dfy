/** The Journal & Reflections section (app.py lines 80-94): an entry that is
    empty or all whitespace is refused; any other entry is appended verbatim.
    The listing shows every entry newest first, numbered from the oldest. */
module Journal {
  import opened Store
  import opened Text

  /** Outcome of pressing "Save Journal Entry": the new document, or the
      "Please enter some text" refusal, which changes nothing. */
  datatype Submission = Saved(doc: Document) | EmptyEntry

  /** `if entry.strip(): data["journal"].append(entry)`. */
  function Submit(d: Document, entry: string): (r: Submission)
    ensures r.EmptyEntry? <==> IsBlank(entry)
    ensures r.Saved? ==> r.doc.challenges == d.challenges
    ensures r.Saved? ==> |r.doc.journal| == |d.journal| + 1
    ensures r.Saved? ==> r.doc.journal[..|d.journal|] == d.journal && r.doc.journal[|d.journal|] == entry
  {
    StripEmptyIffBlank(entry);
    if Strip(entry) == [] then EmptyEntry else Saved(d.(journal := d.journal + [entry]))
  }

  /** The document after pressing save once with `entry`: unchanged for a
      blank entry, the entry appended verbatim otherwise. */
  function AfterSubmit(d: Document, entry: string): (r: Document)
    ensures r == if IsBlank(entry) then d else d.(journal := d.journal + [entry])
  {
    match Submit(d, entry)
    case Saved(d') => d'
    case EmptyEntry => d
  }

  /** The document after pressing save once per entry, in order. The journal
      is append-only: a run of submissions adds exactly the non-blank
      entries, oldest first, after the existing ones, and never touches the
      challenges. */
  function SubmitAll(d: Document, entries: seq<string>): (r: Document)
    ensures r.challenges == d.challenges
    ensures r.journal == d.journal + NonBlank(entries)
    decreases |entries|
  {
    if entries == [] then d
    else
      var e, rest := entries[0], entries[1..];
      assert !IsBlank(e) ==> d.journal + [e] + NonBlank(rest) == d.journal + ([e] + NonBlank(rest));
      SubmitAll(AfterSubmit(d, e), rest)
  }

  /** The entries that are not blank, in their original order. */
  function NonBlank(entries: seq<string>): (r: seq<string>)
    ensures |r| <= |entries|
    decreases |entries|
  {
    if entries == [] then []
    else if IsBlank(entries[0]) then NonBlank(entries[1..])
    else [entries[0]] + NonBlank(entries[1..])
  }

  /** The filter keeps every non-blank entry, as often as it occurs, and
      drops every blank one. */
  lemma {:induction false} NonBlankKeepsExactlyNonBlank(entries: seq<string>)
    ensures forall i :: 0 <= i < |NonBlank(entries)| ==> !IsBlank(NonBlank(entries)[i])
    ensures forall e :: multiset(NonBlank(entries))[e] == if IsBlank(e) then 0 else multiset(entries)[e]
    decreases |entries|
  {
    if entries != [] {
      var rest := entries[1..];
      NonBlankKeepsExactlyNonBlank(rest);
      assert entries == [entries[0]] + rest;
      assert multiset(entries) == multiset{entries[0]} + multiset(rest);
    }
  }

  /** The filter keeps the order: filtering a concatenation concatenates the
      filtered parts. */
  lemma {:induction false} NonBlankOfConcat(a: seq<string>, b: seq<string>)
    ensures NonBlank(a + b) == NonBlank(a) + NonBlank(b)
    decreases |a|
  {
    if a != [] {
      NonBlankOfConcat(a[1..], b);
      assert (a + b)[1..] == a[1..] + b;
    } else {
      assert a + b == b;
    }
  }

  /** Filtering keeps a list whose entries are all non-blank as it is. */
  lemma {:induction false} NonBlankKeepsAll(entries: seq<string>)
    requires forall i :: 0 <= i < |entries| ==> !IsBlank(entries[i])
    ensures NonBlank(entries) == entries
    decreases |entries|
  {
    if entries != [] {
      NonBlankKeepsAll(entries[1..]);
    }
  }

  /** N submissions of non-blank text leave exactly those N entries, in
      submission order, after the existing journal. */
  lemma NonBlankSubmissionsAllKept(d: Document, entries: seq<string>)
    requires forall i :: 0 <= i < |entries| ==> !IsBlank(entries[i])
    ensures SubmitAll(d, entries).journal == d.journal + entries
    ensures |SubmitAll(d, entries).journal| == |d.journal| + |entries|
    ensures SubmitAll(d, entries).challenges == d.challenges
  {
    NonBlankKeepsAll(entries);
  }

  /** One line of the "Previous Entries" listing. */
  datatype Listed = Listed(number: nat, text: string)

  /** `lines` shows `journal` newest first: the k-th line is entry
      `len - 1 - k` labelled `len - k`. */
  predicate NewestFirst(lines: seq<Listed>, journal: seq<string>)
  {
    && |lines| == |journal|
    && forall k :: 0 <= k < |lines| ==> lines[k] == Listed(|journal| - k, journal[|journal| - 1 - k])
  }

  /** Read from the oldest entry, the listing numbers entry `j` as `j + 1`,
      so the labels run from the number of entries down to 1. */
  lemma NewestFirstLabelsFromOldest(lines: seq<Listed>, journal: seq<string>)
    requires NewestFirst(lines, journal)
    ensures forall j :: 0 <= j < |journal| ==> lines[|journal| - 1 - j] == Listed(j + 1, journal[j])
    ensures forall k :: 0 <= k < |lines| ==> 1 <= lines[k].number <= |journal|
    ensures forall k, l :: 0 <= k < l < |lines| ==> lines[k].number > lines[l].number
  {
  }

  /** `for i, entry in enumerate(reversed(data["journal"]))`, labelling each
      entry `len(data["journal"]) - i`. */
  method ListEntries(journal: seq<string>) returns (lines: seq<Listed>)
    ensures NewestFirst(lines, journal)
  {
    lines := [];
    var i := 0;
    while i < |journal|
      invariant 0 <= i <= |journal|
      invariant |lines| == i
      invariant forall k :: 0 <= k < i ==> lines[k] == Listed(|journal| - k, journal[|journal| - 1 - k])
    {
      lines := lines + [Listed(|journal| - i, journal[|journal| - 1 - i])];
      i := i + 1;
    }
  }
}
