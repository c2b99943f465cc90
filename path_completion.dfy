/**
  Completion of a path-like argument against the listing of the runner's
  working directory (the behaviour of PowershellArgument.Complete).

  The listing is the sequence of bare entry names of the directory, files and
  sub-directories alike; enumerating the directory is not part of this model.
  A candidate is an entry name whose beginning matches the typed text, ignoring
  ASCII case, decorated with the relative-path marker `.\` and wrapped in single
  quotes when it contains a space.
*/
module PathCompletion {
  import opened Wrappers

  /** The relative-path marker put in front of every candidate. */
  const Marker: string := ".\\"

  /** ASCII case folding: upper-case letters to lower case, everything else unchanged. */
  function Lower(c: char): (l: char)
    ensures 'A' <= c <= 'Z' ==> 'a' <= l <= 'z' && l as int - c as int == 32
    ensures !('A' <= c <= 'Z') ==> l == c
  {
    if 'A' <= c <= 'Z' then (c as int + 32) as char else c
  }

  /** Case folding of a whole string, one character at a time. */
  function Fold(s: string): (f: string)
    ensures |f| == |s|
    ensures forall i :: 0 <= i < |s| ==> f[i] == Lower(s[i])
  {
    if s == [] then [] else [Lower(s[0])] + Fold(s[1..])
  }

  /** `name` begins with `prefix` when letters are compared without regard to case. */
  predicate StartsWithIgnoringCase(name: string, prefix: string): (b: bool)
    ensures b <==> |prefix| <= |name| && Fold(name[..|prefix|]) == Fold(prefix)
    ensures prefix <= name ==> b
    ensures b ==> |prefix| <= |name|
  {
    |prefix| <= |name| && forall i :: 0 <= i < |prefix| ==> Lower(name[i]) == Lower(prefix[i])
  }

  /** Wraps a decorated path in single quotes when it contains a space. */
  function Quote(s: string): (q: string)
    ensures ' ' in s ==> q == "'" + s + "'"
    ensures ' ' !in s ==> q == s
  {
    if ' ' in s then "'" + s + "'" else s
  }

  /** The completion offered for one directory entry. */
  function Candidate(name: string): (c: string)
    ensures ' ' in name ==> c == "'" + Marker + name + "'"
    ensures ' ' !in name ==> c == Marker + name
  {
    assert ' ' in Marker + name <==> ' ' in name by {
      assert forall i :: 0 <= i < |name| ==> (Marker + name)[i + 2] == name[i];
    }
    Quote(Marker + name)
  }

  /**
    The candidates for `text` over `listing`: one per matching entry, in
    listing order. Matching is done on the bare entry name.
  */
  function Complete(listing: seq<string>, text: string): (r: seq<string>)
    ensures |r| <= |listing|
    ensures forall c :: c in r <==> exists name :: name in listing && StartsWithIgnoringCase(name, text) && c == Candidate(name)
  {
    if listing == [] then []
    else
      var rest := Complete(listing[1..], text);
      assert forall name :: name in listing[1..] ==> name in listing;
      assert forall name :: name in listing ==> name == listing[0] || name in listing[1..];
      if StartsWithIgnoringCase(listing[0], text) then [Candidate(listing[0])] + rest else rest
  }

  /** The entries of `listing` that match `text`, as a set. */
  function MatchingEntries(listing: seq<string>, text: string): (m: set<string>)
    ensures forall name :: name in m <==> name in listing && StartsWithIgnoringCase(name, text)
  {
    set name | name in listing && StartsWithIgnoringCase(name, text)
  }

  /** A directory listing names every entry once. */
  predicate Distinct(listing: seq<string>)
  {
    forall i, j :: 0 <= i < j < |listing| ==> listing[i] != listing[j]
  }

  /** Removes the quotes and the marker of a candidate, giving back the entry name. */
  function Undecorate(c: string): (name: Option<string>)
    ensures name.Some? ==> |name.value| < |c|
  {
    var u := if 2 <= |c| && c[0] == '\'' && c[|c| - 1] == '\'' then c[1..|c| - 1] else c;
    if 2 <= |u| && u[..2] == Marker then Some(u[2..]) else None
  }

  /** Decoration can be undone: every candidate determines its entry name. */
  lemma UndecorateCandidate(name: string)
    ensures Undecorate(Candidate(name)) == Some(name)
  {
    var c := Candidate(name);
    if ' ' in name {
      assert c == "'" + (Marker + name) + "'";
      assert c[1..|c| - 1] == Marker + name;
    } else {
      assert c == Marker + name;
      assert c[0] == '.';
    }
  }

  /** Two different entries never yield the same candidate. */
  lemma CandidateInjective(a: string, b: string)
    requires Candidate(a) == Candidate(b)
    ensures a == b
  {
    UndecorateCandidate(a);
    UndecorateCandidate(b);
  }

  /** Every candidate starts with the marker, possibly behind an opening quote. */
  lemma CandidateShape(name: string)
    ensures var c := Candidate(name);
      (c[..2] == Marker && c[2..] == name) ||
      (c[0] == '\'' && c[1..3] == Marker && c[3..|c| - 1] == name && c[|c| - 1] == '\'' && ' ' in name)
  {
  }

  /** Over a listing without repetitions, no candidate is offered twice. */
  lemma {:induction false} CompleteDistinct(listing: seq<string>, text: string)
    requires Distinct(listing)
    ensures Distinct(Complete(listing, text))
  {
    if listing != [] {
      var tail := listing[1..];
      var rest := Complete(tail, text);
      assert forall k :: 0 <= k < |tail| ==> tail[k] == listing[k + 1];
      assert Distinct(tail);
      CompleteDistinct(tail, text);
      if StartsWithIgnoringCase(listing[0], text) {
        var head := Candidate(listing[0]);
        assert listing[0] !in tail;
        assert head !in rest by {
          if head in rest {
            var name :| name in tail && StartsWithIgnoringCase(name, text) && head == Candidate(name);
            CandidateInjective(name, listing[0]);
            assert false;
          }
        }
        var r := [head] + rest;
        assert r == Complete(listing, text);
        forall i, j | 0 <= i < j < |r| ensures r[i] != r[j] {
          assert r[j] == rest[j - 1] && rest[j - 1] in rest;
          if i > 0 {
            assert r[i] == rest[i - 1];
          }
        }
      }
    }
  }

  /** The number of candidates is the number of matching entries. */
  lemma {:induction false} CompleteCount(listing: seq<string>, text: string)
    requires Distinct(listing)
    ensures |Complete(listing, text)| == |MatchingEntries(listing, text)|
  {
    if listing == [] {
      assert MatchingEntries(listing, text) == {};
    } else {
      var tail := listing[1..];
      assert Distinct(tail) by {
        forall i, j | 0 <= i < j < |tail| ensures tail[i] != tail[j] {
          assert tail[i] == listing[i + 1] && tail[j] == listing[j + 1];
        }
      }
      CompleteCount(tail, text);
      assert forall k :: 0 <= k < |tail| ==> tail[k] == listing[k + 1];
      assert listing[0] !in tail;
      assert forall name :: name in listing <==> name == listing[0] || name in tail;
      if StartsWithIgnoringCase(listing[0], text) {
        assert MatchingEntries(listing, text) == {listing[0]} + MatchingEntries(tail, text);
      } else {
        assert MatchingEntries(listing, text) == MatchingEntries(tail, text);
      }
    }
  }

  /** Changing the case of the typed text does not change the candidates. */
  lemma {:induction false} CompleteIgnoresCase(listing: seq<string>, text: string, other: string)
    requires |text| == |other|
    requires forall i :: 0 <= i < |text| ==> Lower(text[i]) == Lower(other[i])
    ensures Complete(listing, text) == Complete(listing, other)
  {
    if listing != [] {
      CompleteIgnoresCase(listing[1..], text, other);
      assert StartsWithIgnoringCase(listing[0], text) == StartsWithIgnoringCase(listing[0], other);
    }
  }

  /** Typing more characters can only narrow the candidates. */
  lemma CompleteNarrows(listing: seq<string>, text: string, more: string)
    ensures forall c :: c in Complete(listing, text + more) ==> c in Complete(listing, text)
  {
    forall c | c in Complete(listing, text + more) ensures c in Complete(listing, text) {
      var name :| name in listing && StartsWithIgnoringCase(name, text + more) && c == Candidate(name);
      assert forall i :: 0 <= i < |text| ==> (text + more)[i] == text[i];
      assert StartsWithIgnoringCase(name, text);
    }
  }

  /** An empty typed text offers every entry of the listing. */
  lemma {:induction false} CompleteEmptyText(listing: seq<string>)
    ensures |Complete(listing, "")| == |listing|
    ensures forall name :: name in listing ==> Candidate(name) in Complete(listing, "")
  {
    if listing != [] {
      CompleteEmptyText(listing[1..]);
    }
  }

  /** The directory the completion tests run against. */
  const TestListing: seq<string> := ["dir1", "Dir2", "sample", "safiletest.txt", "with space"]

  /** The candidates for "di" over the test directory, in listing order. */
  lemma CompleteDiValue()
    ensures Complete(TestListing, "di") == [".\\dir1", ".\\Dir2"]
  {
    var l := TestListing;
    assert StartsWithIgnoringCase(l[0], "di") && Candidate(l[0]) == ".\\dir1";
    assert StartsWithIgnoringCase(l[1], "di") && Candidate(l[1]) == ".\\Dir2";
    assert l[2][0] == 's' && !StartsWithIgnoringCase(l[2], "di");
    assert l[3][0] == 's' && !StartsWithIgnoringCase(l[3], "di");
    assert l[4][0] == 'w' && !StartsWithIgnoringCase(l[4], "di");
    assert l[1..][1..] == l[2..] && l[2..][1..] == l[3..] && l[3..][1..] == l[4..] && l[4..][1..] == [];
  }

  /** Typing "di": `.\dir1` and `.\Dir2` are offered, `.\sample` is not, two in all. */
  lemma CompleteDi()
    ensures ".\\dir1" in Complete(TestListing, "di")
    ensures ".\\Dir2" in Complete(TestListing, "di")
    ensures ".\\sample" !in Complete(TestListing, "di")
    ensures |Complete(TestListing, "di")| == 2
  {
    CompleteDiValue();
  }

  /** The candidates for "sa" over the test directory, in listing order. */
  lemma CompleteSaValue()
    ensures Complete(TestListing, "sa") == [".\\sample", ".\\safiletest.txt"]
  {
    var l := TestListing;
    assert l[4][0] == 'w' && !StartsWithIgnoringCase(l[4], "sa");
    assert l[4..][1..] == [];
    assert Complete(l[4..], "sa") == [];
    assert StartsWithIgnoringCase(l[3], "sa") && Candidate(l[3]) == ".\\safiletest.txt";
    assert l[3..][1..] == l[4..];
    assert StartsWithIgnoringCase(l[2], "sa") && Candidate(l[2]) == ".\\sample";
    assert l[2..][1..] == l[3..];
    assert Complete(l[2..], "sa") == [".\\sample", ".\\safiletest.txt"];
    assert l[1][0] == 'D' && !StartsWithIgnoringCase(l[1], "sa");
    assert l[1..][1..] == l[2..];
    assert l[0][0] == 'd' && !StartsWithIgnoringCase(l[0], "sa");
  }

  /** Typing "sa": the directory `.\sample` and the file `.\safiletest.txt`, two in all. */
  lemma CompleteSa()
    ensures ".\\sample" in Complete(TestListing, "sa")
    ensures ".\\safiletest.txt" in Complete(TestListing, "sa")
    ensures |Complete(TestListing, "sa")| == 2
  {
    CompleteSaValue();
  }

  /** Typing "wi": the entry with a space is offered quoted as a whole. */
  lemma CompleteWi()
    ensures "'.\\with space'" in Complete(TestListing, "wi")
  {
    var l := TestListing;
    assert StartsWithIgnoringCase(l[4], "wi");
    assert ' ' in l[4];
    assert Candidate(l[4]) == "'.\\with space'";
  }
}
