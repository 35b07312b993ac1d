/**
 * The tag lookup script: `find_all_matches` reads a CSV table and returns,
 * in row order, every first-column value containing the keyword without
 * regard to case. Reading the file is a parameter: the table arrives
 * either as the reason it could not be read or as its first column, where
 * a cell that is empty (NaN) or holds no string is `None`.
 */
module ReadTag {
  import opened Wrappers

  /** Why the table yields no first column of strings; each one is caught and gives `[]`. */
  datatype ReadFailure = FileMissing | Unparsable | NoColumns | NonStringColumn

  datatype Table = Failed(reason: ReadFailure) | FirstColumn(cells: seq<Option<string>>)

  /** ASCII lower-casing of one character. */
  function LowerChar(c: char): (r: char)
    ensures 'A' <= c <= 'Z' ==> r as int == c as int + 32
    ensures !('A' <= c <= 'Z') ==> r == c
    ensures !('A' <= r <= 'Z')
  {
    if 'A' <= c <= 'Z' then (c as int - 'A' as int + 'a' as int) as char else c
  }

  /** ASCII lower-casing of a string, character by character. */
  function Lower(s: string): (r: string)
    ensures |r| == |s|
    ensures forall i :: 0 <= i < |s| ==> r[i] == LowerChar(s[i])
    ensures forall i :: 0 <= i < |r| ==> !('A' <= r[i] <= 'Z')
  {
    seq(|s|, i requires 0 <= i < |s| => LowerChar(s[i]))
  }

  /** `p` occurs in `s` starting at position `i`. */
  predicate OccursAt(p: string, s: string, i: nat)
  {
    i + |p| <= |s| && s[i..i + |p|] == p
  }

  /** Substring test, scanning `s` from the left. */
  function IsInfix(p: string, s: string): (r: bool)
    ensures p <= s ==> r
    ensures r ==> |p| <= |s|
  {
    if p <= s then true
    else if s == [] then false
    else IsInfix(p, s[1..])
  }

  /** `str.contains(keyword, case=False)` on one string, the keyword taken literally. */
  function ContainsIgnoreCase(s: string, keyword: string): (r: bool)
    ensures keyword == "" ==> r
    ensures r ==> |keyword| <= |s|
  {
    IsInfix(Lower(keyword), Lower(s))
  }

  /** The mask entry of one cell: a missing or non-string cell never matches. */
  predicate Matches(cell: Option<string>, keyword: string)
  {
    cell.Some? && ContainsIgnoreCase(cell.value, keyword)
  }

  function Mask(cells: seq<Option<string>>, keyword: string): (mask: seq<bool>)
    ensures |mask| == |cells|
    ensures forall i :: 0 <= i < |cells| ==> (mask[i] <==> Matches(cells[i], keyword))
  {
    seq(|cells|, i requires 0 <= i < |cells| => Matches(cells[i], keyword))
  }

  /** The values of the rows a mask keeps, in row order; a kept row holds a string. */
  function Pick(cells: seq<Option<string>>, mask: seq<bool>): (r: seq<string>)
    requires |mask| == |cells|
    requires forall i :: 0 <= i < |cells| && mask[i] ==> cells[i].Some?
    ensures |r| <= |cells|
  {
    if cells == [] then []
    else
      var n := |cells| - 1;
      Pick(cells[..n], mask[..n]) + (if mask[n] then [cells[n].value] else [])
  }

  function FindAllMatches(table: Table, keyword: string): (r: seq<string>)
    ensures table.Failed? ==> r == []
    ensures table.FirstColumn? ==> |r| <= |table.cells|
  {
    match table
    case Failed(_) => []
    case FirstColumn(cells) =>
      var mask := Mask(cells, keyword);
      if true in mask then Pick(cells, mask) else []
  }

  // ---------------------------------------------------------------------------
  // Reference definitions
  // ---------------------------------------------------------------------------

  /** The matching first-column values, filtered one row at a time. */
  function Matching(cells: seq<Option<string>>, keyword: string): seq<string>
  {
    if cells == [] then []
    else
      var n := |cells| - 1;
      Matching(cells[..n], keyword) + (if Matches(cells[n], keyword) then [cells[n].value] else [])
  }

  /** Every non-null first-column value, in row order. */
  function Values(cells: seq<Option<string>>): seq<string>
  {
    if cells == [] then []
    else
      var n := |cells| - 1;
      Values(cells[..n]) + (if cells[n].Some? then [cells[n].value] else [])
  }

  // ---------------------------------------------------------------------------
  // Properties
  // ---------------------------------------------------------------------------

  /** The scan finds `p` exactly when it occurs at some position of `s`. */
  lemma {:induction false} IsInfixIff(p: string, s: string)
    ensures IsInfix(p, s) <==> exists i: nat :: i <= |s| && OccursAt(p, s, i)
  {
    if p <= s {
      assert OccursAt(p, s, 0);
    } else if s != [] {
      IsInfixIff(p, s[1..]);
      forall i: nat | 1 <= i <= |s| && OccursAt(p, s, i)
        ensures OccursAt(p, s[1..], i - 1)
      {
        assert s[1..][i - 1..i - 1 + |p|] == s[i..i + |p|];
      }
      forall j: nat | j <= |s| - 1 && OccursAt(p, s[1..], j)
        ensures OccursAt(p, s, j + 1)
      {
        assert s[1..][j..j + |p|] == s[j + 1..j + 1 + |p|];
      }
    }
  }

  /** Two characters that are equal or the same ASCII letter in the other case. */
  predicate SameLetterUpToCase(x: char, y: char)
  {
    x == y ||
    ('a' <= x <= 'z' && y as int == x as int - 32) ||
    ('a' <= y <= 'z' && x as int == y as int - 32)
  }

  /** Two strings that differ only in the case of ASCII letters. */
  predicate SameUpToCase(a: string, b: string)
  {
    |a| == |b| && forall i :: 0 <= i < |a| ==> SameLetterUpToCase(a[i], b[i])
  }

  /** Strings that differ only in letter case lower-case to the same string. */
  lemma LowerUpToCase(a: string, b: string)
    requires SameUpToCase(a, b)
    ensures Lower(a) == Lower(b)
  {
    forall i | 0 <= i < |a|
      ensures Lower(a)[i] == Lower(b)[i]
    {
      assert LowerChar(a[i]) == LowerChar(b[i]);
    }
  }

  /**
   * Case is ignored on both sides: changing the case of letters in the string
   * or in the keyword never changes whether it matches.
   */
  lemma MatchIgnoresCase(a: string, b: string, k1: string, k2: string)
    requires SameUpToCase(a, b) && SameUpToCase(k1, k2)
    ensures ContainsIgnoreCase(a, k1) == ContainsIgnoreCase(b, k2)
  {
    LowerUpToCase(a, b);
    LowerUpToCase(k1, k2);
  }

  /** The mask-then-select expression computes the row-by-row filter. */
  lemma {:induction false} PickIsMatching(cells: seq<Option<string>>, keyword: string)
    ensures Pick(cells, Mask(cells, keyword)) == Matching(cells, keyword)
  {
    if cells != [] {
      var n := |cells| - 1;
      assert Mask(cells, keyword)[..n] == Mask(cells[..n], keyword);
      PickIsMatching(cells[..n], keyword);
    }
  }

  lemma {:induction false} MatchingEmptyIff(cells: seq<Option<string>>, keyword: string)
    ensures Matching(cells, keyword) == [] <==> forall i :: 0 <= i < |cells| ==> !Matches(cells[i], keyword)
  {
    if cells != [] {
      var n := |cells| - 1;
      MatchingEmptyIff(cells[..n], keyword);
      assert forall i :: 0 <= i < n ==> cells[..n][i] == cells[i];
    }
  }

  /** The `mask.any()` branch changes nothing: the result is the filter itself. */
  lemma FindAllMatchesIsMatching(cells: seq<Option<string>>, keyword: string)
    ensures FindAllMatches(FirstColumn(cells), keyword) == Matching(cells, keyword)
  {
    PickIsMatching(cells, keyword);
    var mask := Mask(cells, keyword);
    if true !in mask {
      MatchingEmptyIff(cells, keyword);
    }
  }

  /** No row matches exactly when the result is empty. */
  lemma NoMatchIffEmpty(cells: seq<Option<string>>, keyword: string)
    ensures FindAllMatches(FirstColumn(cells), keyword) == [] <==>
            forall i :: 0 <= i < |cells| ==> !Matches(cells[i], keyword)
  {
    FindAllMatchesIsMatching(cells, keyword);
    MatchingEmptyIff(cells, keyword);
  }

  /** Filtering a table split in two filters each part, in order. */
  lemma {:induction false} MatchingAppend(a: seq<Option<string>>, b: seq<Option<string>>, keyword: string)
    ensures Matching(a + b, keyword) == Matching(a, keyword) + Matching(b, keyword)
  {
    if b == [] {
      assert a + b == a;
    } else {
      var n := |b| - 1;
      assert (a + b)[..|a + b| - 1] == a + b[..n];
      MatchingAppend(a, b[..n], keyword);
    }
  }

  /**
   * The result is exactly the matching rows: there are strictly increasing
   * row indices `idx`, the result holds those rows' values in that order
   * (duplicates included), and a row is among them exactly when it matches.
   */
  lemma {:induction false} MatchingRows(cells: seq<Option<string>>, keyword: string) returns (idx: seq<nat>)
    ensures |idx| == |Matching(cells, keyword)|
    ensures forall k :: 0 <= k < |idx| ==> idx[k] < |cells| && cells[idx[k]] == Some(Matching(cells, keyword)[k])
    ensures forall k, l :: 0 <= k < l < |idx| ==> idx[k] < idx[l]
    ensures forall i :: 0 <= i < |cells| ==> (i in idx <==> Matches(cells[i], keyword))
  {
    if cells == [] {
      idx := [];
    } else {
      var n := |cells| - 1;
      var init := cells[..n];
      var prev := MatchingRows(init, keyword);
      var r := Matching(cells, keyword);
      var r0 := Matching(init, keyword);
      assert forall i :: 0 <= i < n ==> init[i] == cells[i];
      if Matches(cells[n], keyword) {
        idx := prev + [n];
        assert r == r0 + [cells[n].value];
        assert forall k :: 0 <= k < |prev| ==> idx[k] == prev[k] && r[k] == r0[k];
      } else {
        idx := prev;
        assert r == r0;
      }
    }
  }

  /** Every returned value is a non-null first-column cell. */
  lemma ResultsAreCells(cells: seq<Option<string>>, keyword: string, x: string)
    requires x in FindAllMatches(FirstColumn(cells), keyword)
    ensures Some(x) in cells && ContainsIgnoreCase(x, keyword)
  {
    FindAllMatchesIsMatching(cells, keyword);
    var idx := MatchingRows(cells, keyword);
    var r := Matching(cells, keyword);
    var k :| 0 <= k < |r| && r[k] == x;
    assert cells[idx[k]] == Some(x);
    assert idx[k] in idx;
  }

  /** The empty keyword keeps every non-null value, in row order. */
  lemma {:induction false} EmptyKeywordKeepsValues(cells: seq<Option<string>>)
    ensures FindAllMatches(FirstColumn(cells), "") == Values(cells)
  {
    FindAllMatchesIsMatching(cells, "");
    MatchingEmptyKeyword(cells);
  }

  lemma {:induction false} MatchingEmptyKeyword(cells: seq<Option<string>>)
    ensures Matching(cells, "") == Values(cells)
  {
    if cells != [] {
      var n := |cells| - 1;
      MatchingEmptyKeyword(cells[..n]);
    }
  }

  /** Every character of a found keyword occurs in the searched string. */
  lemma InfixChars(p: string, s: string, c: char)
    requires IsInfix(p, s) && c in p
    ensures c in s
  {
    IsInfixIff(p, s);
    var i: nat :| i <= |s| && OccursAt(p, s, i);
    var k :| 0 <= k < |p| && p[k] == c;
    assert s[i..i + |p|][k] == s[i + k];
  }

  lemma AppleCells()
    ensures Matches(Some("Apple"), "apple") && Matches(Some("APPLE PIE"), "apple")
    ensures !Matches(Some("banana"), "apple")
  {
    assert Lower("apple") == "apple";
    assert Lower("Apple") == "apple";
    assert Lower("APPLE PIE") == "apple pie";
    assert Lower("banana") == "banana";
    if IsInfix("apple", "banana") {
      InfixChars("apple", "banana", 'p');
    }
  }

  /** A small table: both spellings of "apple" match, the null cell and "banana" do not. */
  lemma AppleExample()
    ensures FindAllMatches(FirstColumn([Some("Apple"), Some("banana"), None, Some("APPLE PIE"), Some("Apple")]), "apple")
            == ["Apple", "APPLE PIE", "Apple"]
  {
    var c1 := [Some("Apple")];
    var c2 := c1 + [Some("banana")];
    var c3 := c2 + [None];
    var c4 := c3 + [Some("APPLE PIE")];
    var c5 := c4 + [Some("Apple")];
    AppleCells();
    assert Matching(c1, "apple") == ["Apple"] by {
      assert c1[..0] == [];
      assert Matching(c1[..0], "apple") == [];
      assert Matches(c1[0], "apple");
    }
    assert Matching(c2, "apple") == ["Apple"] by {
      MatchingSnoc(c1, Some("banana"), "apple");
    }
    assert Matching(c3, "apple") == ["Apple"] by {
      MatchingSnoc(c2, None, "apple");
    }
    assert Matching(c4, "apple") == ["Apple", "APPLE PIE"] by {
      MatchingSnoc(c3, Some("APPLE PIE"), "apple");
    }
    assert Matching(c5, "apple") == ["Apple", "APPLE PIE", "Apple"] by {
      MatchingSnoc(c4, Some("Apple"), "apple");
    }
    assert c5 == [Some("Apple"), Some("banana"), None, Some("APPLE PIE"), Some("Apple")];
    FindAllMatchesIsMatching(c5, "apple");
  }

  /** Filtering a table with one more row at the end. */
  lemma MatchingSnoc(cells: seq<Option<string>>, cell: Option<string>, keyword: string)
    ensures Matching(cells + [cell], keyword) ==
            Matching(cells, keyword) + if Matches(cell, keyword) then [cell.value] else []
  {
    assert (cells + [cell])[..|cells|] == cells;
  }
}
