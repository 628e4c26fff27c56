/** Text helpers shared by the server (Python) and the receiver page (JavaScript).

    Python's `str.split(sep)` and JavaScript's `String.prototype.split(sep)`
    agree for a one-character separator and no limit: the result always has
    one more field than there are separators, and the empty string splits
    into one empty field. `Split` models both. */
module Strings {

  /** The fields of `s` between occurrences of `sep`, in order. */
  function Split(s: string, sep: char): (fields: seq<string>)
    ensures |fields| >= 1
    decreases |s|
  {
    if s == [] then [[]]
    else if s[0] == sep then [[]] + Split(s[1..], sep)
    else
      var rest := Split(s[1..], sep);
      [[s[0]] + rest[0]] + rest[1..]
  }

  /** The inverse of `Split`: the fields glued back with `sep`. */
  function Join(fields: seq<string>, sep: char): string
    requires |fields| >= 1
    decreases |fields|
  {
    if |fields| == 1 then fields[0] else fields[0] + [sep] + Join(fields[1..], sep)
  }

  /** Number of occurrences of `c` in `s`. */
  function Count(s: string, c: char): nat
  {
    if s == [] then 0 else (if s[0] == c then 1 else 0) + Count(s[1..], c)
  }

  predicate StartsWith(s: string, prefix: string)
  {
    |prefix| <= |s| && s[..|prefix|] == prefix
  }

  /** `s.split(sep)[0]`: everything before the first separator. */
  function FirstField(s: string, sep: char): string
  {
    Split(s, sep)[0]
  }

  predicate IsPathSeparator(c: char)
  {
    c == '/' || c == '\\'
  }

  /** Where the last path component of `path[..end]` starts: just after
      the last `/` or `\` before `end`, or 0 when there is none. */
  function NameStart(path: string, end: nat): (start: nat)
    requires end <= |path|
    ensures start <= end
    decreases end
  {
    if end == 0 then 0
    else if IsPathSeparator(path[end - 1]) then end
    else NameStart(path, end - 1)
  }

  /** `os.path.basename` on Windows paths: the part after the last `/` or `\`. */
  function Basename(path: string): string
  {
    path[NameStart(path, |path|)..]
  }

  /** The scan stops right after a separator, or at the start, and passes
      only non-separators on its way. */
  lemma {:induction false} NameStartBounds(path: string, end: nat)
    requires end <= |path|
    ensures NameStart(path, end) == 0 || IsPathSeparator(path[NameStart(path, end) - 1])
    ensures forall i :: NameStart(path, end) <= i < end ==> !IsPathSeparator(path[i])
    decreases end
  {
    if end > 0 && !IsPathSeparator(path[end - 1]) {
      NameStartBounds(path, end - 1);
    }
  }

  /** The basename is a suffix of the path that is either all of it or
      starts right after a separator. */
  lemma BasenameSuffix(path: string)
    ensures var name := Basename(path);
      && |name| <= |path| && path[|path| - |name|..] == name
      && (|name| == |path| || IsPathSeparator(path[|path| - |name| - 1]))
  {
    NameStartBounds(path, |path|);
  }

  /** The basename holds no separator. */
  lemma BasenameNoSeparator(path: string)
    ensures forall i :: 0 <= i < |Basename(path)| ==> !IsPathSeparator(Basename(path)[i])
  {
    NameStartBounds(path, |path|);
    var k := NameStart(path, |path|);
    forall i | 0 <= i < |Basename(path)|
      ensures !IsPathSeparator(Basename(path)[i])
    {
      assert Basename(path)[i] == path[k + i];
    }
  }

  /** Every field of a split is free of the separator. */
  lemma {:induction false} SplitFieldsFree(s: string, sep: char)
    ensures forall i :: 0 <= i < |Split(s, sep)| ==> sep !in Split(s, sep)[i]
    decreases |s|
  {
    if s != [] {
      SplitFieldsFree(s[1..], sep);
    }
  }

  /** A split has exactly one field more than the text has separators. */
  lemma {:induction false} SplitCount(s: string, sep: char)
    ensures |Split(s, sep)| == Count(s, sep) + 1
    decreases |s|
  {
    if s != [] {
      SplitCount(s[1..], sep);
    }
  }

  /** A text without separator is a single field. */
  lemma {:induction false} SplitNoSep(s: string, sep: char)
    requires sep !in s
    ensures Split(s, sep) == [s]
    decreases |s|
  {
    if s != [] {
      assert sep !in s[1..];
      SplitNoSep(s[1..], sep);
      assert [s[0]] + s[1..] == s;
    }
  }

  /** Splitting peels off a separator-free first field. */
  lemma {:induction false} SplitAfter(a: string, sep: char, b: string)
    requires sep !in a
    ensures Split(a + [sep] + b, sep) == [a] + Split(b, sep)
    decreases |a|
  {
    var s := a + [sep] + b;
    if a == [] {
      assert s[1..] == b;
    } else {
      assert s[1..] == a[1..] + [sep] + b;
      SplitAfter(a[1..], sep, b);
      assert [s[0]] + a[1..] == a;
    }
  }

  /** Round trip one way: joining the fields of a split gives the text back. */
  lemma {:induction false} JoinSplit(s: string, sep: char)
    ensures Join(Split(s, sep), sep) == s
    decreases |s|
  {
    if s != [] {
      JoinSplit(s[1..], sep);
      var rest := Split(s[1..], sep);
      if s[0] == sep {
        assert ([[]] + rest)[1..] == rest;
      } else {
        var fields := [[s[0]] + rest[0]] + rest[1..];
        assert fields[1..] == rest[1..];
        if |rest| > 1 {
          assert Join(rest, sep) == rest[0] + [sep] + Join(rest[1..], sep);
        }
      }
    }
  }

  /** Round trip the other way: separator-free fields survive join then split. */
  lemma {:induction false} SplitJoin(fields: seq<string>, sep: char)
    requires |fields| >= 1
    requires forall i :: 0 <= i < |fields| ==> sep !in fields[i]
    ensures Split(Join(fields, sep), sep) == fields
    decreases |fields|
  {
    if |fields| == 1 {
      SplitNoSep(fields[0], sep);
    } else {
      SplitJoin(fields[1..], sep);
      SplitAfter(fields[0], sep, Join(fields[1..], sep));
      assert [fields[0]] + fields[1..] == fields;
    }
  }

  /** Three separator-free fields joined by two separators split back into them. */
  lemma SplitThree(a: string, b: string, c: string, sep: char)
    requires sep !in a && sep !in b && sep !in c
    ensures Split(a + [sep] + b + [sep] + c, sep) == [a, b, c]
  {
    assert Join([a, b, c], sep) == a + [sep] + b + [sep] + c by {
      assert [a, b, c][1..] == [b, c];
      assert [b, c][1..] == [c];
      assert Join([b, c], sep) == b + [sep] + c;
    }
    SplitJoin([a, b, c], sep);
  }

  /** The first field is the longest separator-free prefix. */
  lemma {:induction false} FirstFieldPrefix(s: string, sep: char)
    ensures |FirstField(s, sep)| <= |s|
    ensures s[..|FirstField(s, sep)|] == FirstField(s, sep)
    ensures sep !in FirstField(s, sep)
    ensures |FirstField(s, sep)| == |s| || s[|FirstField(s, sep)|] == sep
    decreases |s|
  {
    SplitFieldsFree(s, sep);
    if s != [] && s[0] != sep {
      FirstFieldPrefix(s[1..], sep);
    }
  }

  /** Occurrences add up over a concatenation. */
  lemma {:induction false} CountAppend(a: string, b: string, c: char)
    ensures Count(a + b, c) == Count(a, c) + Count(b, c)
    decreases |a|
  {
    if a != [] {
      assert (a + b)[1..] == a[1..] + b;
      CountAppend(a[1..], b, c);
    } else {
      assert a + b == b;
    }
  }

  /** Two separators between three pieces add two to the count. */
  lemma CountThree(a: string, b: string, c: string, sep: char)
    ensures Count(a + [sep] + b + [sep] + c, sep) == Count(a, sep) + Count(b, sep) + Count(c, sep) + 2
  {
    assert Count([sep], sep) == 1 by {
      assert [sep][1..] == [];
    }
    CountAppend(a, [sep], sep);
    CountAppend(a + [sep], b, sep);
    CountAppend(a + [sep] + b, [sep], sep);
    CountAppend(a + [sep] + b + [sep], c, sep);
  }

  /** A character occurs somewhere exactly when it is counted. */
  lemma {:induction false} CountZero(s: string, c: char)
    ensures Count(s, c) == 0 <==> c !in s
    decreases |s|
  {
    if s != [] {
      CountZero(s[1..], c);
      assert c in s <==> s[0] == c || c in s[1..];
    }
  }
}
