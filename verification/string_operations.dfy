/** `StringOperations.capitalize`, `is_palindrome` and `is_anagram` from
    pyhdtoolkit/utils/operations.py.

    Case mapping is ASCII (see `Text.Lower`); a word character of the regular
    expression class `\w` is an ASCII letter, an ASCII digit or '_'. Python's
    `sorted` on a string orders characters by code point.
 */
module StringOperations {
  import opened Text
  import ListOperations
  import Sorts

  // ---------------------------------------------------------------------------
  // capitalize
  // ---------------------------------------------------------------------------

  /** `capitalize(text, lower_rest)`: the first character upper-cased, the rest
      lower-cased when `lower_rest` is set and untouched otherwise. */
  function Capitalize(text: string, lowerRest: bool): (r: string)
    ensures |r| == |text|
    ensures |text| > 0 ==> r[0] == UpperChar(text[0])
    ensures forall i :: 1 <= i < |text| ==> r[i] == (if lowerRest then LowerChar(text[i]) else text[i])
  {
    if text == [] then [] else Upper([text[0]]) + (if lowerRest then Lower(text[1..]) else text[1..])
  }

  /** Capitalizing twice is capitalizing once. */
  lemma CapitalizeIdempotent(text: string, lowerRest: bool)
    ensures Capitalize(Capitalize(text, lowerRest), lowerRest) == Capitalize(text, lowerRest)
  {
    var once := Capitalize(text, lowerRest);
    var twice := Capitalize(once, lowerRest);
    assert forall i :: 0 <= i < |text| ==> twice[i] == once[i];
  }

  lemma CaseChars(c: char)
    ensures UpperChar(LowerChar(c)) == UpperChar(c) && LowerChar(UpperChar(c)) == LowerChar(c)
    ensures LowerChar(LowerChar(c)) == LowerChar(c) && UpperChar(UpperChar(c)) == UpperChar(c)
  {
  }

  /** With `lower_rest`, the result does not depend on the case of the input. */
  lemma CapitalizeLowerRestIgnoresCase(text: string)
    ensures Capitalize(Lower(text), true) == Capitalize(text, true)
    ensures Capitalize(Upper(text), true) == Capitalize(text, true)
  {
    var r := Capitalize(text, true);
    var rl := Capitalize(Lower(text), true);
    var ru := Capitalize(Upper(text), true);
    forall i | 0 <= i < |text| ensures rl[i] == r[i] && ru[i] == r[i] {
      CaseChars(text[i]);
    }
  }

  lemma CapitalizeExamples()
    ensures Capitalize("aStR", true) == "Astr"
    ensures Capitalize("aStR", false) == "AStR"
    ensures Capitalize("", false) == ""
  {
    assert Capitalize("aStR", true)[1..] == Lower("StR");
    assert Lower("StR") == "str";
    assert Upper("a") == "A";
  }

  // ---------------------------------------------------------------------------
  // is_palindrome
  // ---------------------------------------------------------------------------

  /** `s[::-1]`. */
  function Reverse<T>(s: seq<T>): (r: seq<T>)
    ensures |r| == |s| && forall i :: 0 <= i < |s| ==> r[i] == s[|s| - 1 - i]
  {
    seq(|s|, i requires 0 <= i < |s| => s[|s| - 1 - i])
  }

  lemma ReverseConcat<T>(a: seq<T>, b: seq<T>)
    ensures Reverse(a + b) == Reverse(b) + Reverse(a)
  {
    assert forall i :: 0 <= i < |a| + |b| ==> Reverse(a + b)[i] == (Reverse(b) + Reverse(a))[i];
  }

  lemma ReverseReverse<T>(a: seq<T>)
    ensures Reverse(Reverse(a)) == a
  {
  }

  /** Characters the pattern `[\W_]` does not remove: letters and digits. */
  predicate IsAlnum(c: char) {
    'a' <= c <= 'z' || 'A' <= c <= 'Z' || '0' <= c <= '9'
  }

  /** `re.sub(r"[\W_]", "", text.lower())`. */
  function Clean(text: string): (r: string)
    ensures forall c :: c in r <==> c in Lower(text) && IsAlnum(c)
  {
    ListOperations.Filter(Lower(text), IsAlnum)
  }

  /** The cleaned text is the lower-cased text with every character that is
      not a letter or a digit taken out: the others stay, in order, each as
      often as before. */
  lemma CleanKeepsOrder(text: string)
    ensures ListOperations.Subsequence(Clean(text), Lower(text))
    ensures ListOperations.KeepsExactly(Clean(text), Lower(text), IsAlnum)
  {
    ListOperations.FilterKeepsOrder(Lower(text), IsAlnum);
  }

  predicate Mirrored(s: string) {
    forall i :: 0 <= i < |s| ==> s[i] == s[|s| - 1 - i]
  }

  /** `is_palindrome(text)`: the cleaned text reads the same backwards. */
  function IsPalindrome(text: string): (r: bool)
    ensures r <==> Mirrored(Clean(text))
  {
    var s := Clean(text);
    assert s == Reverse(s) <==> Mirrored(s) by {
      if Mirrored(s) {
        assert forall i :: 0 <= i < |s| ==> s[i] == Reverse(s)[i];
      }
    }
    s == Reverse(s)
  }

  lemma {:induction false} FilterConcat(a: string, b: string, p: char -> bool)
    ensures ListOperations.Filter(a + b, p) == ListOperations.Filter(a, p) + ListOperations.Filter(b, p)
    decreases |a|
  {
    if a != [] {
      assert (a + b)[1..] == a[1..] + b;
      FilterConcat(a[1..], b, p);
    } else {
      assert a + b == b;
    }
  }

  lemma {:induction false} FilterReverse(s: string, p: char -> bool)
    ensures ListOperations.Filter(Reverse(s), p) == Reverse(ListOperations.Filter(s, p))
    decreases |s|
  {
    if s != [] {
      assert s == [s[0]] + s[1..];
      ReverseConcat([s[0]], s[1..]);
      assert Reverse([s[0]]) == [s[0]];
      FilterReverse(s[1..], p);
      FilterConcat(Reverse(s[1..]), [s[0]], p);
      FilterConcat([s[0]], s[1..], p);
      ReverseConcat(ListOperations.Filter([s[0]], p), ListOperations.Filter(s[1..], p));
      assert ListOperations.Filter([s[0]], p) == Reverse(ListOperations.Filter([s[0]], p)) by {
        assert [s[0]][1..] == [];
      }
    }
  }

  lemma CleanReverse(text: string)
    ensures Clean(Reverse(text)) == Reverse(Clean(text))
  {
    assert Lower(Reverse(text)) == Reverse(Lower(text));
    FilterReverse(Lower(text), IsAlnum);
  }

  lemma CleanConcat(a: string, b: string)
    ensures Clean(a + b) == Clean(a) + Clean(b)
  {
    assert Lower(a + b) == Lower(a) + Lower(b);
    FilterConcat(Lower(a), Lower(b), IsAlnum);
  }

  /** Reading the text backwards does not change the verdict. */
  lemma IsPalindromeOfReverse(text: string)
    ensures IsPalindrome(Reverse(text)) == IsPalindrome(text)
  {
    CleanReverse(text);
    var s := Clean(text);
    ReverseReverse(s);
    if Mirrored(s) {
      assert forall i :: 0 <= i < |s| ==> Reverse(s)[i] == Reverse(s)[|s| - 1 - i];
    }
    if Mirrored(Reverse(s)) {
      assert forall i :: 0 <= i < |s| ==> s[i] == Reverse(s)[|s| - 1 - i];
    }
  }

  /** A text followed by its own reverse is a palindrome. */
  lemma IsPalindromeOfMirror(text: string)
    ensures IsPalindrome(text + Reverse(text))
  {
    var s := Clean(text);
    CleanConcat(text, Reverse(text));
    CleanReverse(text);
    var m := s + Reverse(s);
    assert forall i :: 0 <= i < |m| ==> m[i] == m[|m| - 1 - i];
  }

  lemma IsPalindromeExamples()
    ensures IsPalindrome("racecar")
  {
    IsPalindromeOfMirroredText("racecar");
  }

  /** Mirrored text of lower-case letters and digits is a palindrome. */
  lemma IsPalindromeOfMirroredText(t: string)
    requires forall i :: 0 <= i < |t| ==> 'a' <= t[i] <= 'z' || '0' <= t[i] <= '9'
    requires Mirrored(t)
    ensures IsPalindrome(t)
  {
    CleanOfLowerAlnum(t);
  }

  lemma IsPalindromeEmpty()
    ensures IsPalindrome("")
  {
    assert Lower("") == "";
  }

  lemma IsPalindromeCounterExample()
    ensures !IsPalindrome("definitelynot")
  {
    CleanOfLowerAlnum("definitelynot");
  }

  /** Text made of lower-case letters and digits is its own cleaned form. */
  lemma CleanOfLowerAlnum(t: string)
    requires forall i :: 0 <= i < |t| ==> 'a' <= t[i] <= 'z' || '0' <= t[i] <= '9'
    ensures Clean(t) == t
  {
    assert Lower(t) == t;
    FilterAllKept(t, IsAlnum);
  }

  lemma {:induction false} FilterAllKept(s: string, p: char -> bool)
    requires forall c :: c in s ==> p(c)
    ensures ListOperations.Filter(s, p) == s
    decreases |s|
  {
    if s != [] {
      assert forall c :: c in s[1..] ==> c in s;
      FilterAllKept(s[1..], p);
    }
  }

  // ---------------------------------------------------------------------------
  // is_anagram
  // ---------------------------------------------------------------------------

  /** `text.replace(" ", "").replace("'", "").lower()`. */
  function Letters(text: string): (r: string)
    ensures ListOperations.Subsequence(r, Lower(text)) && ListOperations.KeepsExactly(r, Lower(text), Kept)
  {
    var once := ListOperations.Filter(text, c => c != ' ');
    FilterTwice(text, c => c != ' ', c => c != '\'', Kept);
    LowerFilter(text, Kept);
    ListOperations.FilterKeepsOrder(Lower(text), Kept);
    Lower(ListOperations.Filter(once, c => c != '\''))
  }

  /** The characters `is_anagram` keeps: all but spaces and apostrophes. */
  predicate Kept(c: char) {
    c != ' ' && c != '\''
  }

  /** Two filters in a row keep what both predicates accept. */
  lemma {:induction false} FilterTwice(s: string, p: char -> bool, q: char -> bool, both: char -> bool)
    requires forall c :: both(c) == (p(c) && q(c))
    ensures ListOperations.Filter(ListOperations.Filter(s, p), q) == ListOperations.Filter(s, both)
    decreases |s|
  {
    if s != [] {
      FilterTwice(s[1..], p, q, both);
      if p(s[0]) {
        var t := ListOperations.Filter(s[1..], p);
        assert ([s[0]] + t)[1..] == t;
      }
    }
  }

  /** Lower-casing commutes with a filter that does not look at case. */
  lemma {:induction false} LowerFilter(s: string, p: char -> bool)
    requires forall c :: p(LowerChar(c)) == p(c)
    ensures Lower(ListOperations.Filter(s, p)) == ListOperations.Filter(Lower(s), p)
    decreases |s|
  {
    if s != [] {
      LowerFilter(s[1..], p);
      assert Lower(s)[1..] == Lower(s[1..]);
      if p(s[0]) {
        LowerConcat([s[0]], ListOperations.Filter(s[1..], p));
        assert Lower([s[0]]) == [LowerChar(s[0])];
      }
    }
  }

  /** Code points, the keys `sorted` orders characters by. */
  function Codes(s: string): (r: seq<int>)
    ensures |r| == |s| && forall i :: 0 <= i < |s| ==> r[i] == s[i] as int
  {
    seq(|s|, i requires 0 <= i < |s| => s[i] as int)
  }

  /** `is_anagram(str_1, str_2)`: the sorted letters are the same. */
  function IsAnagram(s1: string, s2: string): (r: bool)
    ensures r <==> multiset(Letters(s1)) == multiset(Letters(s2))
  {
    var a, b := Letters(s1), Letters(s2);
    SortedCodesEqualIffSameMultiset(a, b);
    Sorts.QuickSort(Codes(a)) == Sorts.QuickSort(Codes(b))
  }

  /** Sorting the code points loses exactly the order of the characters. */
  lemma SortedCodesEqualIffSameMultiset(a: string, b: string)
    ensures Sorts.QuickSort(Codes(a)) == Sorts.QuickSort(Codes(b)) <==> multiset(a) == multiset(b)
  {
    Sorts.QuickSortCorrect(Codes(a));
    Sorts.QuickSortCorrect(Codes(b));
    if multiset(a) == multiset(b) {
      CodesKeepMultiset(a, b);
      Sorts.SortedPermutationsAreEqual(Sorts.QuickSort(Codes(a)), Sorts.QuickSort(Codes(b)));
    }
    if Sorts.QuickSort(Codes(a)) == Sorts.QuickSort(Codes(b)) {
      CodesReflectMultiset(a, b);
    }
  }

  lemma CodesConcat(a: string, b: string)
    ensures Codes(a + b) == Codes(a) + Codes(b)
  {
  }

  /** Taking out position `j` leaves the multiset minus that element. */
  lemma RemoveAt<T>(s: seq<T>, j: nat)
    requires j < |s|
    ensures multiset(s) == multiset(s[..j] + s[j + 1..]) + multiset{s[j]}
  {
    assert s == s[..j] + [s[j]] + s[j + 1..];
  }

  /** Taking out position `j` commutes with taking code points. */
  lemma CodesRemoveAt(s: string, j: nat)
    requires j < |s|
    ensures Codes(s[..j] + s[j + 1..]) == Codes(s)[..j] + Codes(s)[j + 1..]
  {
  }

  lemma LastOut<T>(s: seq<T>)
    requires |s| > 0
    ensures multiset(s) == multiset(s[..|s| - 1]) + multiset{s[|s| - 1]}
  {
    assert s == s[..|s| - 1] + [s[|s| - 1]];
  }

  lemma {:induction false} CodesKeepMultiset(a: string, b: string)
    requires multiset(a) == multiset(b)
    ensures multiset(Codes(a)) == multiset(Codes(b))
    decreases |a|
  {
    if a == [] {
      assert |b| == |multiset(b)| == 0;
    } else {
      var n := |a| - 1;
      var c := a[n];
      LastOut(a);
      assert c in multiset(b);
      var j :| 0 <= j < |b| && b[j] == c;
      var b' := b[..j] + b[j + 1..];
      RemoveAt(b, j);
      assert multiset(a[..n]) == multiset(a) - multiset{c};
      assert multiset(b') == multiset(b) - multiset{c};
      CodesKeepMultiset(a[..n], b');
      LastOut(Codes(a));
      assert Codes(a)[..n] == Codes(a[..n]);
      RemoveAt(Codes(b), j);
      CodesRemoveAt(b, j);
    }
  }

  lemma {:induction false} CodesReflectMultiset(a: string, b: string)
    requires multiset(Codes(a)) == multiset(Codes(b))
    ensures multiset(a) == multiset(b)
    decreases |a|
  {
    if a == [] {
      assert |b| == |Codes(b)| == |multiset(Codes(b))| == 0;
    } else {
      var n := |a| - 1;
      var c := a[n];
      LastOut(Codes(a));
      assert Codes(a)[..n] == Codes(a[..n]);
      assert c as int in multiset(Codes(b));
      var j :| 0 <= j < |b| && Codes(b)[j] == c as int;
      assert b[j] == c;
      var b' := b[..j] + b[j + 1..];
      RemoveAt(Codes(b), j);
      CodesRemoveAt(b, j);
      assert multiset(Codes(a[..n])) == multiset(Codes(a)) - multiset{c as int};
      assert multiset(Codes(b')) == multiset(Codes(b)) - multiset{c as int};
      CodesReflectMultiset(a[..n], b');
      LastOut(a);
      RemoveAt(b, j);
    }
  }

  /** Spaces and apostrophes never matter. */
  lemma IsAnagramIgnoresSpacesAndApostrophes(s1: string, s2: string)
    ensures IsAnagram(s1 + " '", s2) == IsAnagram(s1, s2)
  {
    var noSpace := (c: char) => c != ' ';
    var noQuote := (c: char) => c != '\'';
    FilterConcat(s1, " '", noSpace);
    assert ListOperations.Filter(" '", noSpace) == "'" by {
      assert " '"[1..] == "'";
      assert "'"[1..] == "";
    }
    FilterConcat(ListOperations.Filter(s1, noSpace), "'", noQuote);
    assert ListOperations.Filter("'", noQuote) == "" by {
      assert "'"[1..] == "";
    }
    assert ListOperations.Filter(ListOperations.Filter(s1 + " '", noSpace), noQuote)
        == ListOperations.Filter(ListOperations.Filter(s1, noSpace), noQuote);
  }

  lemma IsAnagramExamples()
    ensures IsAnagram("", "")
    ensures !IsAnagram("", "mismatched_lengths")
  {
    var b := Letters("mismatched_lengths");
    assert 'm' in "mismatched_lengths";
    assert 'm' in b;
    assert |multiset(b)| > 0;
  }
}
