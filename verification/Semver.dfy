/** The manager's "is this a newer version" comparison. */
module Semver {
  type Text = seq<char>

  /** Split at every separator; the result is never empty. */
  function Split(s: Text, sep: char): (r: seq<Text>)
    ensures |r| > 0
  {
    if s == [] then [[]]
    else
      var rest := Split(s[1..], sep);
      if s[0] == sep then [[]] + rest else [[s[0]] + rest[0]] + rest[1..]
  }

  function Join(parts: seq<Text>, sep: char): Text
    requires parts != []
  {
    if |parts| == 1 then parts[0] else parts[0] + [sep] + Join(parts[1..], sep)
  }

  lemma {:induction false} JoinSplit(s: Text, sep: char)
    ensures Join(Split(s, sep), sep) == s
  {
    if s != [] {
      JoinSplit(s[1..], sep);
      var rest := Split(s[1..], sep);
      if s[0] == sep {
        assert ([[]] + rest)[1..] == rest;
      } else {
        var r := [[s[0]] + rest[0]] + rest[1..];
        assert r[1..] == rest[1..];
      }
    }
  }

  function TrimV(s: Text): Text {
    if s != [] && s[0] == 'v' then s[1..] else s
  }

  /** The components as numbers; `atoi` stands for strconv.Atoi with its error ignored. */
  function Numbers(parts: seq<Text>, atoi: Text -> int): (r: seq<int>)
    ensures |r| == |parts|
  {
    seq(|parts|, i requires 0 <= i < |parts| => atoi(parts[i]))
  }

  function Parse(version: Text, atoi: Text -> int): seq<int> {
    Numbers(Split(TrimV(version), '.'), atoi)
  }

  /** Lexicographic order, a proper prefix being smaller. */
  predicate Less(a: seq<int>, b: seq<int>) {
    b != [] && (a == [] || a[0] < b[0] || (a[0] == b[0] && Less(a[1..], b[1..])))
  }

  /** isNewerSemver: the loop decides exactly the lexicographic order of the parsed lists. */
  method IsNewer(latest: Text, current: Text, atoi: Text -> int) returns (newer: bool)
    ensures newer <==> Less(Parse(current, atoi), Parse(latest, atoi))
  {
    var l, c := TrimV(latest), TrimV(current);
    if l == c {
      NotLessThanItself(Parse(latest, atoi));
      return false;
    }
    var lp, cp := Split(l, '.'), Split(c, '.');
    ghost var ln, cn := Numbers(lp, atoi), Numbers(cp, atoi);
    var i := 0;
    while i < |lp| && i < |cp|
      invariant i <= |lp| && i <= |cp|
      invariant Less(cn, ln) <==> Less(cn[i..], ln[i..])
    {
      assert cn[i..][1..] == cn[i + 1..] && ln[i..][1..] == ln[i + 1..];
      var x, y := atoi(lp[i]), atoi(cp[i]);
      if x > y {
        return true;
      }
      if x < y {
        return false;
      }
      i := i + 1;
    }
    newer := |lp| > |cp|;
  }

  lemma {:induction false} NotLessThanItself(a: seq<int>)
    ensures !Less(a, a)
  {
    if a != [] {
      NotLessThanItself(a[1..]);
    }
  }

  /** Any two lists compare exactly one way. */
  lemma {:induction false} Trichotomy(a: seq<int>, b: seq<int>)
    ensures Less(a, b) || Less(b, a) || a == b
    ensures !(Less(a, b) && Less(b, a)) && (a == b ==> !Less(a, b))
    decreases |a|
  {
    if a != [] && b != [] {
      Trichotomy(a[1..], b[1..]);
      if a[0] == b[0] {
        assert a == [a[0]] + a[1..] && b == [b[0]] + b[1..];
      }
    }
  }

  lemma {:induction false} Transitive(a: seq<int>, b: seq<int>, c: seq<int>)
    requires Less(a, b) && Less(b, c)
    ensures Less(a, c)
    decreases |a|
  {
    if a != [] && a[0] == b[0] == c[0] {
      Transitive(a[1..], b[1..], c[1..]);
    }
  }

  /** The first component that differs decides, and the larger number is the newer. */
  lemma {:induction false} FirstDifferenceDecides(a: seq<int>, b: seq<int>, i: nat)
    requires i < |a| && i < |b| && a[..i] == b[..i] && a[i] != b[i]
    ensures Less(a, b) <==> a[i] < b[i]
  {
    if i > 0 {
      assert a[0] == a[..i][0] && b[0] == b[..i][0];
      assert a[1..][..i - 1] == a[..i][1..] && b[1..][..i - 1] == b[..i][1..];
      FirstDifferenceDecides(a[1..], b[1..], i - 1);
    }
  }

  /** A version that another one continues with more components is the older of the two. */
  lemma {:induction false} PrefixIsOlder(a: seq<int>, more: seq<int>)
    requires more != []
    ensures Less(a, a + more) && !Less(a + more, a)
  {
    if a == [] {
      assert a + more == more;
    } else {
      assert (a + more)[1..] == a[1..] + more;
      PrefixIsOlder(a[1..], more);
    }
  }

  /** Splitting undoes joining, for parts without a separator in them. */
  lemma {:induction false} SplitJoin(parts: seq<Text>, sep: char)
    requires parts != [] && forall p :: p in parts ==> sep !in p
    ensures Split(Join(parts, sep), sep) == parts
    decreases |parts|
  {
    if |parts| == 1 {
      SplitWhole(parts[0], sep);
      assert parts == [parts[0]];
    } else {
      assert parts[0] in parts && forall p :: p in parts[1..] ==> p in parts;
      SplitJoin(parts[1..], sep);
      SplitFront(parts[0], sep, Join(parts[1..], sep));
      assert parts == [parts[0]] + parts[1..];
    }
  }

  lemma {:induction false} SplitWhole(s: Text, sep: char)
    requires sep !in s
    ensures Split(s, sep) == [s]
  {
    if s != [] {
      SplitWhole(s[1..], sep);
      assert s == [s[0]] + s[1..];
    }
  }

  lemma {:induction false} SplitFront(s: Text, sep: char, rest: Text)
    requires sep !in s
    ensures Split(s + [sep] + rest, sep) == [s] + Split(rest, sep)
    decreases |s|
  {
    var all := s + [sep] + rest;
    if s == [] {
      assert all[0] == sep && all[1..] == rest;
    } else {
      assert all[0] == s[0] && all[1..] == s[1..] + [sep] + rest;
      SplitFront(s[1..], sep, rest);
      assert s == [s[0]] + s[1..];
    }
  }

  /** A version text is read component by component, and one leading "v" is not part of it. */
  lemma ParseJoined(parts: seq<Text>, atoi: Text -> int)
    requires parts != [] && (forall p :: p in parts ==> '.' !in p) && (parts[0] == [] || parts[0][0] != 'v')
    ensures Parse(Join(parts, '.'), atoi) == Parse("v" + Join(parts, '.'), atoi) == Numbers(parts, atoi)
  {
    SplitJoin(parts, '.');
    var s := Join(parts, '.');
    assert ("v" + s)[1..] == s;
    assert s != [] && parts[0] != [] ==> s[0] == parts[0][0];
  }

  /** Versions, each offered as an update over the one before. */
  predicate Chain(vs: seq<Text>, atoi: Text -> int) {
    forall i :: 0 <= i < |vs| - 1 ==> Less(Parse(vs[i], atoi), Parse(vs[i + 1], atoi))
  }

  /** Following offered updates never leads back: the last of a chain is newer than the first,
      so no set of versions can offer updates in a circle, however its components parse. */
  lemma {:induction false} NoUpdateCycle(vs: seq<Text>, atoi: Text -> int)
    requires |vs| >= 2 && Chain(vs, atoi)
    ensures Less(Parse(vs[0], atoi), Parse(vs[|vs| - 1], atoi))
    ensures Parse(vs[0], atoi) != Parse(vs[|vs| - 1], atoi)
    decreases |vs|
  {
    hide Parse, Less;
    var n := |vs| - 1;
    if n == 1 {
      assert Less(Parse(vs[0], atoi), Parse(vs[0 + 1], atoi));
    } else {
      NoUpdateCycle(vs[..n], atoi);
      assert Less(Parse(vs[n - 1], atoi), Parse(vs[n - 1 + 1], atoi));
      Transitive(Parse(vs[0], atoi), Parse(vs[n - 1], atoi), Parse(vs[n], atoi));
    }
    Trichotomy(Parse(vs[0], atoi), Parse(vs[n], atoi));
  }
}
