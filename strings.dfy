/**
 * The two string helpers the exporter relies on, with the semantics of Go's
 * strings.Split and strings.Join for a one-character separator.
 */
module Strings {

  /**
   * Split `s` around every occurrence of `sep`. As in Go, the result always has
   * at least one element (splitting "" gives [""]), and a string without `sep`
   * comes back as the single element [s].
   */
  function Split(s: string, sep: char): (r: seq<string>)
    ensures |r| >= 1
    ensures forall i :: 0 <= i < |r| ==> sep !in r[i]
  {
    SplitFrom(s, sep, "")
  }

  /** Split `s`, where `field` holds the characters already read into the first field. */
  function SplitFrom(s: string, sep: char, field: string): (r: seq<string>)
    requires sep !in field
    ensures |r| >= 1
    ensures forall i :: 0 <= i < |r| ==> sep !in r[i]
    decreases |s|
  {
    if |s| == 0 then [field]
    else if s[0] == sep then [field] + SplitFrom(s[1..], sep, "")
    else SplitFrom(s[1..], sep, field + [s[0]])
  }

  /** Concatenate `parts`, putting `sep` between neighbouring elements. */
  function Join(parts: seq<string>, sep: char): (r: string)
    ensures |parts| >= 2 ==> |parts[0]| < |r| && r[|parts[0]|] == sep
    decreases |parts|
  {
    if |parts| == 0 then ""
    else if |parts| == 1 then parts[0]
    else parts[0] + [sep] + Join(parts[1..], sep)
  }

  /** True when no element of `parts` contains `c`. */
  predicate FreeOf(parts: seq<string>, c: char)
  {
    forall i :: 0 <= i < |parts| ==> c !in parts[i]
  }

  /** Without a separator the whole remaining text joins the current field. */
  lemma {:induction false} SplitFromNoSep(s: string, sep: char, field: string)
    requires sep !in field && sep !in s
    ensures SplitFrom(s, sep, field) == [field + s]
    decreases |s|
  {
    if |s| > 0 {
      assert s[0] in s && sep !in s[1..];
      assert SplitFrom(s, sep, field) == SplitFrom(s[1..], sep, field + [s[0]]);
      SplitFromNoSep(s[1..], sep, field + [s[0]]);
      assert s == [s[0]] + s[1..];
      assert field + [s[0]] + s[1..] == field + s;
    } else {
      assert field + s == field;
    }
  }

  /** A string without the separator splits into itself alone. */
  lemma SplitNoSep(s: string, sep: char)
    requires sep !in s
    ensures Split(s, sep) == [s]
  {
    SplitFromNoSep(s, sep, "");
    assert "" + s == s;
  }

  /** SplitFrom distributes over a separator between two strings. */
  lemma {:induction false} SplitFromAppend(a: string, b: string, sep: char, field: string)
    requires sep !in field
    ensures SplitFrom(a + [sep] + b, sep, field) == SplitFrom(a, sep, field) + Split(b, sep)
    decreases |a|
  {
    var s := a + [sep] + b;
    if |a| == 0 {
      assert s[0] == sep && s[1..] == b;
    } else {
      assert s[0] == a[0];
      assert s[1..] == a[1..] + [sep] + b;
      if a[0] == sep {
        SplitFromAppend(a[1..], b, sep, "");
      } else {
        SplitFromAppend(a[1..], b, sep, field + [a[0]]);
      }
    }
  }

  /** Splitting distributes over a separator between two strings. */
  lemma SplitAppend(a: string, b: string, sep: char)
    ensures Split(a + [sep] + b, sep) == Split(a, sep) + Split(b, sep)
  {
    SplitFromAppend(a, b, sep, "");
  }

  /** Splitting a string that ends in the separator yields one trailing empty field. */
  lemma SplitTrailing(s: string, sep: char)
    ensures Split(s + [sep], sep) == Split(s, sep) + [""]
  {
    assert s + [sep] == s + [sep] + "";
    SplitAppend(s, "", sep);
  }

  /** Join then Split is the identity on separator-free, non-empty lists of parts. */
  lemma {:induction false} SplitJoin(parts: seq<string>, sep: char)
    requires |parts| >= 1
    requires FreeOf(parts, sep)
    ensures Split(Join(parts, sep), sep) == parts
    decreases |parts|
  {
    if |parts| > 1 {
      SplitAppend(parts[0], Join(parts[1..], sep), sep);
      assert FreeOf(parts[1..], sep) by {
        forall i | 0 <= i < |parts[1..]| ensures sep !in parts[1..][i] {
          assert parts[1..][i] == parts[i + 1];
        }
      }
      SplitJoin(parts[1..], sep);
      SplitNoSep(parts[0], sep);
      assert parts == [parts[0]] + parts[1..];
    } else {
      SplitNoSep(parts[0], sep);
    }
  }

  /** Joining what SplitFrom returns restores the current field and the text. */
  lemma {:induction false} JoinSplitFrom(s: string, sep: char, field: string)
    requires sep !in field
    ensures Join(SplitFrom(s, sep, field), sep) == field + s
    decreases |s|
  {
    if |s| == 0 {
      assert field + s == field;
    } else if s[0] == sep {
      var rest := SplitFrom(s[1..], sep, "");
      JoinSplitFrom(s[1..], sep, "");
      assert ([field] + rest)[1..] == rest;
      assert "" + s[1..] == s[1..];
      assert s == [sep] + s[1..];
    } else {
      JoinSplitFrom(s[1..], sep, field + [s[0]]);
      assert s == [s[0]] + s[1..];
    }
  }

  /** Split then Join is the identity on every string. */
  lemma JoinSplit(s: string, sep: char)
    ensures Join(Split(s, sep), sep) == s
  {
    JoinSplitFrom(s, sep, "");
    assert "" + s == s;
  }

  /** A string that contains the separator splits into at least two parts. */
  lemma SplitSeparated(s: string, sep: char)
    requires sep in s
    ensures |Split(s, sep)| >= 2
  {
    JoinSplit(s, sep);
  }

  /** A character that is neither the separator nor in any part is not in the join. */
  lemma {:induction false} JoinAvoids(parts: seq<string>, sep: char, c: char)
    requires c != sep
    requires FreeOf(parts, c)
    ensures c !in Join(parts, sep)
    decreases |parts|
  {
    if |parts| > 1 {
      assert FreeOf(parts[1..], c) by {
        forall i | 0 <= i < |parts[1..]| ensures c !in parts[1..][i] {
          assert parts[1..][i] == parts[i + 1];
        }
      }
      JoinAvoids(parts[1..], sep, c);
      assert c !in parts[0];
    } else if |parts| == 1 {
      assert c !in parts[0];
    }
  }
}
