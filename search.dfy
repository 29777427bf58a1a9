/**
 * The data side of `searchCustomer`: the search term, the filter predicate,
 * `Array.prototype.filter` over the list, and the `findIndex` by id that maps
 * each hit back to the position used to open its profile.
 */
module CustomerSearch {
  import opened JsText
  import opened Records

  /** One rendered hit: the index its buttons pass to `openProfile`, and the record shown. */
  datatype Hit = Hit(index: int, customer: Customer)

  /**
   * The term searched for: the input lower-cased, then trimmed. It is no
   * longer than the input, holds no upper-case ASCII letter, and neither
   * starts nor ends with whitespace.
   */
  function SearchTerm(input: string): (t: string)
    ensures |t| <= |input|
    ensures NoUpperAscii(t)
    ensures t != [] ==> !IsJsWhitespace(t[0]) && !IsJsWhitespace(t[|t| - 1])
  {
    TrimKeepsNoUpper(ToLowerCase(input));
    Trim(ToLowerCase(input))
  }

  /**
   * The filter predicate: the lower-cased name contains the term, or the
   * phone, which is not lower-cased, does. The empty term matches every
   * record, a term found in the lower-cased name or in the phone matches,
   * and a term with an upper-case ASCII letter can only match through the
   * phone.
   */
  function Matches(c: Customer, term: string): (b: bool)
    ensures term == [] ==> b
    ensures Includes(ToLowerCase(c.name), term) ==> b
    ensures Includes(c.phone, term) ==> b
    ensures b && !NoUpperAscii(term) ==> Includes(c.phone, term)
  {
    var low := ToLowerCase(c.name);
    if Includes(low, term) then IncludedKeepsNoUpper(low, term); true
    else Includes(c.phone, term)
  }

  /**
   * The name is searched regardless of letter case: text that occurs in the
   * name once ASCII letter case is ignored matches after the search
   * lower-cases it.
   */
  lemma NameAnyCase(c: Customer, typed: string, i: nat)
    requires OccursAtIgnoringCase(c.name, typed, i)
    ensures Matches(c, ToLowerCase(typed))
  {
    assert ToLowerCase(c.name)[i..i + |typed|] == ToLowerCase(typed);
    assert OccursAt(ToLowerCase(c.name), ToLowerCase(typed), i);
  }

  /**
   * Conversely, a lower-cased search text that is not found in the phone
   * matches only when it occurs in the name, letter case ignored: the
   * search leaves out every other record.
   */
  lemma NameMatchIgnoresCase(c: Customer, typed: string)
    requires Matches(c, ToLowerCase(typed)) && !Includes(c.phone, ToLowerCase(typed))
    ensures exists i :: OccursAtIgnoringCase(c.name, typed, i)
  {
    var low, t := ToLowerCase(c.name), ToLowerCase(typed);
    var i :| 0 <= i <= |low| - |t| && OccursAt(low, t, i);
    forall k | 0 <= k < |typed| ensures LowerChar(typed[k]) == LowerChar(c.name[i + k]) {
      assert t[k] == low[i + k];
    }
    assert OccursAtIgnoringCase(c.name, typed, i);
  }

  /** `s.filter(c => Matches(c, term))`: the matching records, taken first to last. */
  function Filtered(s: seq<Customer>, term: string): (r: seq<Customer>)
    ensures |r| <= |s|
    ensures forall k :: 0 <= k < |r| ==> r[k] in s && Matches(r[k], term)
  {
    if s == [] then []
    else (if Matches(s[0], term) then [s[0]] else []) + Filtered(s[1..], term)
  }

  /**
   * The positions at or after `i` whose record matches, in increasing order:
   * the reference against which the filter is checked.
   */
  function MatchingPositions(s: seq<Customer>, term: string, i: nat): (r: seq<nat>)
    requires i <= |s|
    ensures forall k :: 0 <= k < |r| ==> i <= r[k] < |s| && Matches(s[r[k]], term)
    ensures forall k, l :: 0 <= k < l < |r| ==> r[k] < r[l]
    ensures forall j :: i <= j < |s| && Matches(s[j], term) ==> j in r
    decreases |s| - i
  {
    if i == |s| then []
    else (if Matches(s[i], term) then [i] else []) + MatchingPositions(s, term, i + 1)
  }

  /**
   * `s.findIndex(c => c.id === id)`: the first position holding `id`, or -1
   * when no record holds it.
   */
  function FindIndex(s: seq<Customer>, id: int): (r: int)
    ensures -1 <= r < |s|
    ensures r == -1 <==> forall j :: 0 <= j < |s| ==> s[j].id != id
    ensures r >= 0 ==> s[r].id == id && forall j :: 0 <= j < r ==> s[j].id != id
  {
    if s == [] then -1
    else if s[0].id == id then 0
    else
      var r' := FindIndex(s[1..], id);
      if r' == -1 then -1 else r' + 1
  }

  /** The filter keeps exactly the records at the matching positions, in their order. */
  lemma {:induction false} FilteredPicksMatchingPositions(s: seq<Customer>, term: string, i: nat)
    requires i <= |s|
    ensures |Filtered(s[i..], term)| == |MatchingPositions(s, term, i)|
    ensures forall k :: 0 <= k < |MatchingPositions(s, term, i)| ==>
              Filtered(s[i..], term)[k] == s[MatchingPositions(s, term, i)[k]]
    decreases |s| - i
  {
    if i < |s| {
      FilteredPicksMatchingPositions(s, term, i + 1);
      var rest, restPos := Filtered(s[i + 1..], term), MatchingPositions(s, term, i + 1);
      assert s[i..][1..] == s[i + 1..];
      assert s[i..][0] == s[i];
      if Matches(s[i], term) {
        assert Filtered(s[i..], term) == [s[i]] + rest;
        assert MatchingPositions(s, term, i) == [i] + restPos;
        SelectionCons(s, i, rest, restPos);
      } else {
        assert Filtered(s[i..], term) == rest;
        assert MatchingPositions(s, term, i) == restPos;
      }
    }
  }

  /** Prepending position `i` to a selection of `s` keeps it a selection. */
  lemma SelectionCons(s: seq<Customer>, i: nat, rest: seq<Customer>, restPos: seq<nat>)
    requires i < |s| && |rest| == |restPos|
    requires forall k :: 0 <= k < |restPos| ==> restPos[k] < |s| && rest[k] == s[restPos[k]]
    ensures forall k :: 0 <= k < |restPos| + 1 ==> ([i] + restPos)[k] < |s| && ([s[i]] + rest)[k] == s[([i] + restPos)[k]]
  {
    forall k | 0 <= k < |restPos| + 1 ensures ([i] + restPos)[k] < |s| && ([s[i]] + rest)[k] == s[([i] + restPos)[k]] {
      if k > 0 { assert ([s[i]] + rest)[k] == rest[k - 1] && ([i] + restPos)[k] == restPos[k - 1]; }
    }
  }

  /**
   * The hits listed for a term. An empty term lists the whole list under its
   * own positions (renderCustomerList); otherwise each filtered record is
   * listed under the first position holding its id. Every hit's index
   * addresses a record with the hit's id.
   */
  function Hits(customers: seq<Customer>, term: string): (r: seq<Hit>)
    ensures |r| <= |customers|
    ensures forall k :: 0 <= k < |r| ==>
              0 <= r[k].index < |customers| && customers[r[k].index].id == r[k].customer.id
    ensures term != [] ==> forall k :: 0 <= k < |r| ==> r[k].customer in customers && Matches(r[k].customer, term)
    ensures term != [] ==> forall k, j :: 0 <= k < |r| && 0 <= j < r[k].index ==> r[k].customer.id != customers[j].id
  {
    if term == [] then
      seq(|customers|, i requires 0 <= i < |customers| => Hit(i, customers[i]))
    else
      var f := Filtered(customers, term);
      seq(|f|, k requires 0 <= k < |f| => Hit(FindIndex(customers, f[k].id), f[k]))
  }

  /** What `searchCustomer` lists for the text typed into the search box. */
  function Search(customers: seq<Customer>, input: string): (r: seq<Hit>)
    ensures |r| <= |customers|
    ensures AllWhitespace(input) ==> |r| == |customers| && forall k :: 0 <= k < |r| ==> r[k] == Hit(k, customers[k])
    ensures !AllWhitespace(input) ==> r == Hits(customers, SearchTerm(input)) && SearchTerm(input) != []
  {
    SearchTermBlank(input);
    Hits(customers, SearchTerm(input))
  }

  /** The term is empty exactly when the input is whitespace only: lower-casing never makes or removes whitespace. */
  lemma SearchTermBlank(input: string)
    ensures SearchTerm(input) == [] <==> AllWhitespace(input)
  {
    var low := ToLowerCase(input);
    forall i | 0 <= i < |low| ensures IsJsWhitespace(low[i]) <==> IsJsWhitespace(input[i]) {
      assert low[i] == input[i] || 'A' <= input[i] <= 'Z';
    }
  }

  /**
   * A non-empty term lists exactly the matching records, in their original
   * order, each under an index that holds its id and lies no later than the
   * record's own position.
   */
  lemma HitsSelectMatches(customers: seq<Customer>, term: string)
    requires term != []
    ensures var pos := MatchingPositions(customers, term, 0);
            && |Hits(customers, term)| == |pos|
            && forall k :: 0 <= k < |pos| ==>
                 && Hits(customers, term)[k].customer == customers[pos[k]]
                 && Hits(customers, term)[k].index <= pos[k]
  {
    assert customers[0..] == customers;
    FilteredPicksMatchingPositions(customers, term, 0);
  }

  /**
   * With unique ids, each hit's index is the hit's own position, so opening
   * that profile shows the record listed, which matches a non-empty term.
   */
  lemma HitIndexIsPosition(customers: seq<Customer>, term: string)
    requires UniqueIds(customers)
    ensures term != [] ==>
              var pos := MatchingPositions(customers, term, 0);
              && |Hits(customers, term)| == |pos|
              && forall k :: 0 <= k < |pos| ==> Hits(customers, term)[k].index == pos[k]
    ensures forall k :: 0 <= k < |Hits(customers, term)| ==>
              && customers[Hits(customers, term)[k].index] == Hits(customers, term)[k].customer
              && (term != [] ==> Matches(Hits(customers, term)[k].customer, term))
  {
    var r := Hits(customers, term);
    if term != [] {
      var pos := MatchingPositions(customers, term, 0);
      HitsSelectMatches(customers, term);
      forall k | 0 <= k < |pos|
        ensures r[k].index == pos[k] && customers[r[k].index] == r[k].customer && Matches(r[k].customer, term)
      {
        assert customers[r[k].index].id == customers[pos[k]].id;
      }
    }
  }
}
