/** Turning `parties` rows into `Party` records and listing the events
    (src/services/partyService.ts). The database queries are not modelled: their rows are
    the inputs. */
module PartyService {

  import opened Wrappers
  import opened JsStrings
  import opened Types
  import Api

  /** A row of the `parties` table: the columns the transformation reads (the scene, outfit,
      address, social and per-category columns are read by nothing modelled here). */
  datatype PartyRow = PartyRow(
    id: string,
    weekendParty: string,
    date: string,
    day: string,
    partyName: string,
    confirmed: Option<string>,
    startTime: Option<string>,
    endTime: Option<string>,
    venue: Option<string>,
    tags: Option<string>,
    link: Option<string>,
    ticketTier1: Option<string>,
    ticketTier2: Option<string>,
    ticketTier3: Option<string>)

  /** JavaScript truthiness of a nullable string: `null` and `""` are falsy. */
  predicate Truthy(s: Option<string>)
    ensures Truthy(s) ==> s.Some? && |s.value| > 0
    ensures s.Some? && |s.value| > 0 ==> Truthy(s)
  {
    s.Some? && s.value != ""
  }

  /** `s || fallback`: the value when it is truthy, otherwise the fallback; so the result is
      empty only when both are. */
  function OrElse(s: Option<string>, fallback: string): (r: string)
    ensures Truthy(s) ==> r == s.value
    ensures !Truthy(s) ==> r == fallback
    ensures r == [] <==> !Truthy(s) && fallback == []
  {
    if Truthy(s) then s.value else fallback
  }

  // ---------------------------------------------------------------- tags

  /** `Array.prototype.map`: `f` applied to every element, in place. */
  function Map<A, B>(f: A -> B, xs: seq<A>): (r: seq<B>)
    ensures |r| == |xs|
    ensures forall i :: 0 <= i < |r| ==> r[i] == f(xs[i])
  {
    seq(|xs|, i requires 0 <= i < |xs| => f(xs[i]))
  }

  /** Mapping works element by element, so it distributes over concatenation. */
  lemma MapAppend<A, B>(f: A -> B, a: seq<A>, b: seq<A>)
    ensures Map(f, a + b) == Map(f, a) + Map(f, b)
  {
    assert forall i :: 0 <= i < |a| ==> (a + b)[i] == a[i];
    assert forall i :: |a| <= i < |a + b| ==> (a + b)[i] == b[i - |a|];
  }

  /** `.filter(Boolean)` on strings: the non-empty ones, in their order. */
  function DropEmpty(xs: seq<string>): (r: seq<string>)
    ensures |r| <= |xs|
    ensures forall i :: 0 <= i < |r| ==> r[i] != "" && r[i] in xs
    ensures forall x :: x in xs && x != "" ==> x in r
  {
    if xs == [] then []
    else
      var rest := DropEmpty(xs[1..]);
      assert forall x :: x in xs[1..] ==> x in xs;
      assert xs == [xs[0]] + xs[1..];
      if xs[0] == "" then rest else [xs[0]] + rest
  }

  /** Filtering works piece by piece: a list's halves can be filtered separately. */
  lemma {:induction false} DropEmptyAppend(a: seq<string>, b: seq<string>)
    ensures DropEmpty(a + b) == DropEmpty(a) + DropEmpty(b)
  {
    if a == [] {
      assert a + b == b;
    } else {
      assert (a + b)[0] == a[0] && (a + b)[1..] == a[1..] + b;
      DropEmptyAppend(a[1..], b);
    }
  }

  /** `.map((t) => t.trim()).filter(Boolean)`: each piece trimmed, empty ones dropped. Every
      piece kept is non-empty and trimmed, and every piece that is not blank is kept. */
  function TrimmedNonEmpty(pieces: seq<string>): (r: seq<string>)
    ensures |r| <= |pieces|
    ensures forall i :: 0 <= i < |r| ==> r[i] != "" && IsTrimmed(r[i])
    ensures forall i :: 0 <= i < |pieces| && !IsBlank(pieces[i]) ==> Trim(pieces[i]) in r
  {
    var trimmed := Map(Trim, pieces);
    var r := DropEmpty(trimmed);
    assert forall i :: 0 <= i < |r| ==> exists j :: 0 <= j < |trimmed| && r[i] == trimmed[j];
    r
  }

  /** Trimming and dropping empties works piece by piece over a concatenation. */
  lemma TrimmedNonEmptyAppend(a: seq<string>, b: seq<string>)
    ensures TrimmedNonEmpty(a + b) == TrimmedNonEmpty(a) + TrimmedNonEmpty(b)
  {
    MapAppend(Trim, a, b);
    DropEmptyAppend(Map(Trim, a), Map(Trim, b));
  }

  /** The `tags` column as a list: empty when the column is null or empty, otherwise the
      comma-separated pieces, trimmed, with empty pieces dropped. Every tag is non-empty and
      trimmed, and there are never more tags than pieces. */
  function ParseTags(tags: Option<string>): (r: seq<string>)
    ensures !Truthy(tags) ==> r == []
    ensures Truthy(tags) ==> |r| <= multiset(tags.value)[','] + 1
    ensures forall i :: 0 <= i < |r| ==> r[i] != "" && IsTrimmed(r[i])
  {
    if Truthy(tags) then
      SplitCount(tags.value, ',');
      TrimmedNonEmpty(Split(tags.value, ','))
    else []
  }

  /** A column without commas gives its trimmed text as the one tag, or no tag if blank. */
  lemma ParseTagsOfPiece(s: string)
    requires ',' !in s
    ensures ParseTags(Some(s)) == if IsBlank(s) then [] else [Trim(s)]
  {
    SplitSeparatorFree(s, ',');
    if s != "" {
      assert Map(Trim, [s]) == [Trim(s)];
      assert DropEmpty([Trim(s)]) == (if Trim(s) == "" then [] else [Trim(s)]) + DropEmpty([]);
    }
  }

  /** A present column always reads as its trimmed, filtered pieces: the empty string has
      one blank piece, which the filter drops. */
  lemma ParseTagsPresent(s: string)
    ensures ParseTags(Some(s)) == TrimmedNonEmpty(Split(s, ','))
  {
    if s == "" {
      assert Split(s, ',') == [""];
      assert Map(Trim, [""]) == [""];
      assert DropEmpty([""]) == [];
    }
  }

  /** The tags left of a comma come first, then those right of it: left-to-right order is kept. */
  lemma ParseTagsConcat(a: string, b: string)
    ensures ParseTags(Some(a + "," + b)) == ParseTags(Some(a)) + ParseTags(Some(b))
  {
    ParseTagsPresent(a + "," + b);
    ParseTagsPresent(a);
    ParseTagsPresent(b);
    SplitConcat(a, b, ',');
    TrimmedNonEmptyAppend(Split(a, ','), Split(b, ','));
  }

  // ---------------------------------------------------------------- rows

  /** The first ticket tier that is set and non-empty, otherwise "TBD". */
  function TicketPrice(row: PartyRow): (r: string)
    ensures r != ""
    ensures Truthy(row.ticketTier1) ==> r == row.ticketTier1.value
    ensures !Truthy(row.ticketTier1) && Truthy(row.ticketTier2) ==> r == row.ticketTier2.value
    ensures !Truthy(row.ticketTier1) && !Truthy(row.ticketTier2) && Truthy(row.ticketTier3)
            ==> r == row.ticketTier3.value
    ensures !Truthy(row.ticketTier1) && !Truthy(row.ticketTier2) && !Truthy(row.ticketTier3)
            ==> r == "TBD"
    ensures r == "TBD" || Some(r) == row.ticketTier1 || Some(r) == row.ticketTier2
         || Some(r) == row.ticketTier3
  {
    if Truthy(row.ticketTier1) then row.ticketTier1.value
    else if Truthy(row.ticketTier2) then row.ticketTier2.value
    else if Truthy(row.ticketTier3) then row.ticketTier3.value
    else "TBD"
  }

  /** A party with no ticket tier at all costs nothing. */
  lemma UnpricedPartyIsFree(row: PartyRow)
    requires !Truthy(row.ticketTier1) && !Truthy(row.ticketTier2) && !Truthy(row.ticketTier3)
    ensures Api.ParsePrice(TicketPrice(row)) == 0
  {
    assert forall k :: 0 <= k < |"TBD"| ==> !IsDigit("TBD"[k]);
  }

  /** `transformPartyRow`: name, date and day copied; tags parsed; the price taken from the
      first available tier; times and venue default to "", confirmation to "No", and an empty
      link becomes absent. */
  function TransformPartyRow(row: PartyRow): (p: Party)
    ensures p.partyName == row.partyName
    ensures p.date == Some(row.date) && p.day == Some(row.day)
    ensures p.tags == ParseTags(row.tags)
    ensures p.ticketPrice == TicketPrice(row) && p.ticketPrice != ""
    ensures p.startTime == (if Truthy(row.startTime) then row.startTime.value else "")
    ensures p.endTime == (if Truthy(row.endTime) then row.endTime.value else "")
    ensures p.venue == (if Truthy(row.venue) then row.venue.value else "")
    ensures p.confirmed == (if Truthy(row.confirmed) then row.confirmed.value else "No")
    ensures p.confirmed != ""
    ensures p.link.Some? <==> Truthy(row.link)
    ensures p.link.Some? ==> p.link == row.link && p.link.value != ""
    ensures p.description.None?
  {
    Party(
      partyName := row.partyName,
      description := None,
      tags := ParseTags(row.tags),
      startTime := OrElse(row.startTime, ""),
      endTime := OrElse(row.endTime, ""),
      venue := OrElse(row.venue, ""),
      ticketPrice := TicketPrice(row),
      confirmed := OrElse(row.confirmed, "No"),
      date := Some(row.date),
      day := Some(row.day),
      link := if Truthy(row.link) then row.link else None)
  }

  // ---------------------------------------------------------------- event names

  /** No later element is smaller than an earlier one. */
  predicate Sorted(xs: seq<string>) {
    forall i, j :: 0 <= i < j < |xs| ==> !StrLess(xs[j], xs[i])
  }

  predicate StrictlySorted(xs: seq<string>) {
    forall i, j :: 0 <= i < j < |xs| ==> StrLess(xs[i], xs[j])
  }

  /** `[...new Set(xs)]`: the first occurrence of each value, in order. */
  function UniqueInOrder(xs: seq<string>): (r: seq<string>)
    ensures Distinct(r)
    ensures forall x :: x in r <==> x in xs
    ensures |r| <= |xs|
  {
    if xs == [] then []
    else
      var u := UniqueInOrder(xs[..|xs| - 1]);
      var x := xs[|xs| - 1];
      assert xs == xs[..|xs| - 1] + [x];
      if x in u then u else u + [x]
  }

  /** Inserts `x` after every element smaller than it. */
  function InsertSorted(x: string, xs: seq<string>): (r: seq<string>)
    ensures multiset(r) == multiset(xs) + multiset{x}
  {
    if xs == [] then [x]
    else if StrLess(xs[0], x) then
      assert xs == [xs[0]] + xs[1..];
      [xs[0]] + InsertSorted(x, xs[1..])
    else [x] + xs
  }

  /** A sorted list behind an element no later element is smaller than is sorted. */
  lemma SortedCons(h: string, t: seq<string>)
    requires Sorted(t)
    requires forall j :: 0 <= j < |t| ==> !StrLess(t[j], h)
    ensures Sorted([h] + t)
  {
    var r := [h] + t;
    forall i, j | 0 <= i < j < |r| ensures !StrLess(r[j], r[i]) {
      assert r[j] == t[j - 1];
      if i > 0 { assert r[i] == t[i - 1]; }
    }
  }

  lemma {:induction false} InsertSortedKeepsOrder(x: string, xs: seq<string>)
    requires Sorted(xs)
    ensures Sorted(InsertSorted(x, xs))
  {
    if xs != [] {
      if StrLess(xs[0], x) {
        var t := InsertSorted(x, xs[1..]);
        InsertSortedKeepsOrder(x, xs[1..]);
        forall j | 0 <= j < |t| ensures !StrLess(t[j], xs[0]) {
          assert t[j] in multiset(t);
          if t[j] == x {
            StrLessAsymmetric(xs[0], x);
          } else {
            assert t[j] in xs[1..];
            var k :| 0 <= k < |xs[1..]| && xs[1..][k] == t[j];
            assert xs[k + 1] == t[j];
          }
        }
        SortedCons(xs[0], t);
      } else {
        StrLessTotal(xs[0], x);
        forall j | 0 <= j < |xs| ensures !StrLess(xs[j], x) {
          if j > 0 && x != xs[0] {
            assert !StrLess(xs[j], xs[0]);
            NotLessThroughLess(xs[j], x, xs[0]);
          }
        }
        SortedCons(x, xs);
      }
    }
  }

  /** Below something smaller than `c` only what is below `c` can be. */
  lemma NotLessThroughLess(a: string, b: string, c: string)
    requires StrLess(b, c) && !StrLess(a, c)
    ensures !StrLess(a, b)
  {
    if StrLess(a, b) {
      StrLessTransitive(a, b, c);
    }
  }


  /** `xs.sort()` with the default comparator: ascending, and a rearrangement of `xs`. */
  function SortStrings(xs: seq<string>): (r: seq<string>)
    ensures multiset(r) == multiset(xs)
  {
    if xs == [] then []
    else
      assert xs == [xs[0]] + xs[1..];
      InsertSorted(xs[0], SortStrings(xs[1..]))
  }

  lemma {:induction false} SortStringsSorted(xs: seq<string>)
    ensures Sorted(SortStrings(xs))
  {
    if xs != [] {
      SortStringsSorted(xs[1..]);
      InsertSortedKeepsOrder(xs[0], SortStrings(xs[1..]));
    }
  }

  /** Sorted with no value twice is strictly ascending. */
  lemma SortedDistinctIsStrict(xs: seq<string>)
    requires Sorted(xs) && Distinct(xs)
    ensures StrictlySorted(xs)
  {
    forall i, j | 0 <= i < j < |xs| ensures StrLess(xs[i], xs[j]) {
      DistinctAt(xs, i, j);
      StrLessTotal(xs[i], xs[j]);
    }
  }

  /** A row of the `weekend_party` query. */
  datatype EventRow = EventRow(weekendParty: string)

  function EventNames(rows: seq<EventRow>): (names: seq<string>)
    ensures |names| == |rows|
    ensures forall i :: 0 <= i < |rows| ==> names[i] == rows[i].weekendParty
  {
    if rows == [] then [] else [rows[0].weekendParty] + EventNames(rows[1..])
  }

  /** The unique-and-sort step of `fetchAvailableEvents`: each event name once, ascending. */
  function AvailableEvents(rows: seq<EventRow>): (r: seq<string>)
    ensures StrictlySorted(r)
    ensures forall x :: x in r <==> exists i :: 0 <= i < |rows| && rows[i].weekendParty == x
  {
    var names := EventNames(rows);
    var unique := UniqueInOrder(names);
    var sorted := SortStrings(unique);
    SortStringsSorted(unique);
    assert multiset(sorted) == multiset(unique);
    SortedDistinctIsStrict(sorted);
    forall x ensures x in sorted <==> exists i :: 0 <= i < |rows| && rows[i].weekendParty == x {
      assert x in sorted <==> x in multiset(unique);
      if x in names {
        var i :| 0 <= i < |names| && names[i] == x;
        assert rows[i].weekendParty == x;
      }
      if exists i :: 0 <= i < |rows| && rows[i].weekendParty == x {
        var i :| 0 <= i < |rows| && rows[i].weekendParty == x;
        assert names[i] == x;
      }
    }
    sorted
  }

  /** A strictly ascending list is determined by its elements: the event listing is the one
      ascending, duplicate-free arrangement of the distinct names. */
  lemma {:induction false} StrictlySortedUnique(a: seq<string>, b: seq<string>)
    requires StrictlySorted(a) && StrictlySorted(b)
    requires forall x :: x in a <==> x in b
    ensures a == b
  {
    assert a == [] <==> b == [] by {
      if a != [] { assert a[0] in b; }
      if b != [] { assert b[0] in a; }
    }
    if a != [] {
      assert a[0] in b && b[0] in a;
      var i :| 0 <= i < |b| && b[i] == a[0];
      var j :| 0 <= j < |a| && a[j] == b[0];
      assert a[0] == b[0] by {
        if j == 0 { StrLessIrreflexive(a[0]); } else { StrLessAsymmetric(a[0], a[j]); }
        if i == 0 { StrLessIrreflexive(b[0]); } else { StrLessAsymmetric(b[0], b[i]); }
        StrLessTotal(a[0], b[0]);
      }
      forall x ensures x in a[1..] <==> x in b[1..] {
        if x in a[1..] {
          var k :| 0 <= k < |a[1..]| && a[1..][k] == x;
          assert StrLess(a[0], a[k + 1]);
          StrLessIrreflexive(a[0]);
          assert x in b;
        }
        if x in b[1..] {
          var k :| 0 <= k < |b[1..]| && b[1..][k] == x;
          assert StrLess(b[0], b[k + 1]);
          StrLessIrreflexive(b[0]);
          assert x in a;
        }
      }
      StrictlySortedUnique(a[1..], b[1..]);
      assert a == [a[0]] + a[1..] && b == [b[0]] + b[1..];
    }
  }
}
