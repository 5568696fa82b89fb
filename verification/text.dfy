/** Searching and splitting Java strings on a separator character. */
module Text {
  import opened Wrappers
  import opened Jvm

  /** `s.indexOf(c)`: the position of the first `c`, if any. */
  function IndexOf(s: JString, c: JChar): (r: Option<nat>)
    ensures r.Some? ==> r.value < |s| && s[r.value] == c && c !in s[..r.value]
    ensures r.None? <==> c !in s
  {
    if s == [] then None
    else if s[0] == c then Some(0)
    else match IndexOf(s[1..], c)
      case None => None
      case Some(i) => assert s[1..][..i] == s[1..i + 1]; Some(i + 1)
  }

  /** The fields of `s` between occurrences of `sep`, left to right. */
  function Split(s: JString, sep: JChar): (r: seq<JString>)
    ensures |r| >= 1
    decreases |s|
  {
    match IndexOf(s, sep)
    case None => [s]
    case Some(i) => [s[..i]] + Split(s[i + 1..], sep)
  }

  lemma IndexOfAfterField(a: JString, c: JChar, b: JString)
    requires c !in a
    ensures IndexOf(a + [c] + b, c) == Some(|a|)
  {
    var s := a + [c] + b;
    assert s[|a|] == c;
    assert forall j | 0 <= j < |a| :: s[j] == a[j];
  }

  /** A field free of the separator is split off intact. */
  lemma SplitField(a: JString, sep: JChar, b: JString)
    requires sep !in a
    ensures Split(a + [sep] + b, sep) == [a] + Split(b, sep)
  {
    var s := a + [sep] + b;
    IndexOfAfterField(a, sep, b);
    assert s[..|a|] == a;
    assert s[|a| + 1..] == b;
  }

  /** Two strings cut at their first separator agree on both halves. */
  lemma FirstFieldUnique(a1: JString, b1: JString, a2: JString, b2: JString, sep: JChar)
    requires sep !in a1 && sep !in a2
    requires a1 + [sep] + b1 == a2 + [sep] + b2
    ensures a1 == a2 && b1 == b2
  {
    IndexOfAfterField(a1, sep, b1);
    IndexOfAfterField(a2, sep, b2);
    var s := a1 + [sep] + b1;
    assert a1 == s[..|a1|] && a2 == s[..|a2|];
    assert b1 == s[|a1| + 1..] && b2 == s[|a2| + 1..];
  }
}
