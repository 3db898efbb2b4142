/** The class-name joiner: it keeps the truthy arguments and joins them with
    single spaces. An argument is an optional string; it is falsy when it is
    absent or empty. */
module ClassNames {
  import opened Options

  predicate Truthy(arg: Option<string>) {
    arg.Some? && arg.value != ""
  }

  /** The truthy arguments' strings, in argument order. */
  function Truthies(args: seq<Option<string>>): (parts: seq<string>)
    ensures |parts| <= |args|
    ensures forall p :: p in parts ==> p != ""
    ensures forall i :: 0 <= i < |args| && Truthy(args[i]) ==> args[i].value in parts
    ensures forall p :: p in parts ==> exists i :: 0 <= i < |args| && args[i] == Some(p)
    ensures parts == [] <==> forall i :: 0 <= i < |args| ==> !Truthy(args[i])
  {
    if args == [] then []
    else (if Truthy(args[0]) then [args[0].value] else []) + Truthies(args[1..])
  }

  /** Total number of characters in a list of strings. */
  function TotalLength(parts: seq<string>): nat {
    if parts == [] then 0 else |parts[0]| + TotalLength(parts[1..])
  }

  /** The parts with one separator between neighbours. */
  function Join(parts: seq<string>, sep: char): (s: string)
    ensures parts != [] ==> |s| == TotalLength(parts) + |parts| - 1
    ensures parts == [] ==> s == ""
  {
    if parts == [] then ""
    else if |parts| == 1 then parts[0]
    else parts[0] + [sep] + Join(parts[1..], sep)
  }

  /** The class name built from the arguments: the truthy ones joined by
      single spaces. It is empty exactly when no argument is truthy. */
  function Cx(args: seq<Option<string>>): (name: string)
    ensures name == "" <==> forall i :: 0 <= i < |args| ==> !Truthy(args[i])
    ensures Truthies(args) != [] ==> |name| == TotalLength(Truthies(args)) + |Truthies(args)| - 1
  {
    Join(Truthies(args), ' ')
  }

  /** Cutting a string at every separator. Joining the pieces gives back the
      string (JoinSplit); cutting a join gives back the parts when they
      contain no separator (SplitJoin, CxRoundTrip). */
  function Split(s: string, sep: char): (parts: seq<string>)
    ensures |parts| > 0
  {
    if s == [] then [""]
    else if s[0] == sep then [""] + Split(s[1..], sep)
    else var rest := Split(s[1..], sep); [[s[0]] + rest[0]] + rest[1..]
  }

  /** The strings of a list glued together. */
  function Flatten(lists: seq<seq<string>>): seq<string> {
    if lists == [] then [] else lists[0] + Flatten(lists[1..])
  }

  /** Each part cut at the separator. */
  function SplitEach(parts: seq<string>, sep: char): (r: seq<seq<string>>)
    ensures |r| == |parts|
  {
    if parts == [] then [] else [Split(parts[0], sep)] + SplitEach(parts[1..], sep)
  }

  lemma {:induction false} TruthiesAppend(a: seq<Option<string>>, b: seq<Option<string>>)
    ensures Truthies(a + b) == Truthies(a) + Truthies(b)
  {
    if a == [] {
      assert a + b == b;
    } else {
      assert (a + b)[1..] == a[1..] + b;
      TruthiesAppend(a[1..], b);
    }
  }

  lemma {:induction false} JoinAppend(p: seq<string>, q: seq<string>, sep: char)
    requires p != [] && q != []
    ensures Join(p + q, sep) == Join(p, sep) + [sep] + Join(q, sep)
  {
    if |p| == 1 {
      assert (p + q)[1..] == q;
    } else {
      assert (p + q)[1..] == p[1..] + q;
      JoinAppend(p[1..], q, sep);
    }
  }

  /** The class name of two argument lists put together: the two class names
      with exactly one space between them when both are non-empty. Falsy
      arguments at the seam contribute no separator. */
  lemma CxAppend(a: seq<Option<string>>, b: seq<Option<string>>)
    ensures Cx(a + b) ==
      if Truthies(a) == [] then Cx(b)
      else if Truthies(b) == [] then Cx(a)
      else Cx(a) + " " + Cx(b)
  {
    TruthiesAppend(a, b);
    if Truthies(a) == [] {
      assert Truthies(a) + Truthies(b) == Truthies(b);
    } else if Truthies(b) == [] {
      assert Truthies(a) + Truthies(b) == Truthies(a);
    } else {
      JoinAppend(Truthies(a), Truthies(b), ' ');
    }
  }

  /** A falsy argument anywhere contributes nothing. */
  lemma CxDropsFalsy(a: seq<Option<string>>, f: Option<string>, b: seq<Option<string>>)
    requires !Truthy(f)
    ensures Cx(a + [f] + b) == Cx(a + b)
  {
    TruthiesAppend(a + [f], b);
    TruthiesAppend(a, [f]);
    TruthiesAppend(a, b);
    assert Truthies([f]) == [];
    assert Truthies(a + [f]) == Truthies(a);
  }

  /** Two truthy arguments give their strings with one space between. */
  lemma CxPair(x: string, y: string)
    requires x != "" && y != ""
    ensures Cx([Some(x), Some(y)]) == x + " " + y
  {
    assert Truthies([Some(y)]) == [y];
    assert Truthies([Some(x), Some(y)]) == [x, y];
    assert [x, y][1..] == [y];
    assert Join([x, y], ' ') == x + [' '] + y;
    assert [' '] == " ";
  }

  lemma {:induction false} SplitAround(a: string, b: string, sep: char)
    ensures Split(a + [sep] + b, sep) == Split(a, sep) + Split(b, sep)
  {
    if a == [] {
      assert a + [sep] + b == [sep] + b;
      assert ([sep] + b)[1..] == b;
    } else {
      assert (a + [sep] + b)[1..] == a[1..] + [sep] + b;
      SplitAround(a[1..], b, sep);
    }
  }

  /** Cutting a joined string at the separator gives back the pieces of every
      part in order: the separators Join inserts never merge with, or split,
      the parts' own pieces. */
  lemma {:induction false} SplitJoin(parts: seq<string>, sep: char)
    requires parts != []
    ensures Split(Join(parts, sep), sep) == Flatten(SplitEach(parts, sep))
  {
    if |parts| == 1 {
      assert Flatten(SplitEach(parts, sep)) == Split(parts[0], sep) + Flatten([]);
    } else {
      SplitJoin(parts[1..], sep);
      SplitAround(parts[0], Join(parts[1..], sep), sep);
    }
  }

  /** Joining the pieces of a string cut at the separator gives back the
      string, for every string. */
  lemma {:induction false} JoinSplit(s: string, sep: char)
    ensures Join(Split(s, sep), sep) == s
  {
    if s != [] {
      var rest := Split(s[1..], sep);
      JoinSplit(s[1..], sep);
      if s[0] == sep {
        assert ([""] + rest)[1..] == rest;
        assert Join([""] + rest, sep) == "" + [sep] + Join(rest, sep);
      } else {
        var parts := [[s[0]] + rest[0]] + rest[1..];
        if |rest| == 1 {
          assert parts == [[s[0]] + rest[0]];
        } else {
          assert parts[1..] == rest[1..];
          assert Join(rest, sep) == rest[0] + [sep] + Join(rest[1..], sep);
          assert Join(parts, sep) == [s[0]] + rest[0] + [sep] + Join(rest[1..], sep);
        }
        assert [s[0]] + s[1..] == s;
      }
    }
  }

  lemma {:induction false} SplitWithoutSep(s: string, sep: char)
    requires sep !in s
    ensures Split(s, sep) == [s]
  {
    if s != [] {
      SplitWithoutSep(s[1..], sep);
      assert [s[0]] + s[1..] == s;
    }
  }

  lemma {:induction false} FlattenSingletons(parts: seq<string>, sep: char)
    requires forall p :: p in parts ==> sep !in p
    ensures Flatten(SplitEach(parts, sep)) == parts
  {
    if parts != [] {
      SplitWithoutSep(parts[0], sep);
      FlattenSingletons(parts[1..], sep);
    }
  }

  /** When the truthy arguments contain no spaces themselves, cutting the class
      name at its spaces gives back exactly the truthy arguments, in order:
      there is no leading, trailing or doubled space. */
  lemma CxRoundTrip(args: seq<Option<string>>)
    requires Truthies(args) != []
    requires forall i :: 0 <= i < |args| && args[i].Some? ==> ' ' !in args[i].value
    ensures Split(Cx(args), ' ') == Truthies(args)
  {
    var parts := Truthies(args);
    SplitJoin(parts, ' ');
    FlattenSingletons(parts, ' ');
  }

  /** A joined string of non-empty parts starts with the first part's first
      character and ends with the last part's last character. */
  lemma {:induction false} JoinEdges(parts: seq<string>, sep: char)
    requires parts != [] && forall i :: 0 <= i < |parts| ==> parts[i] != ""
    ensures var s, first, last := Join(parts, sep), parts[0], parts[|parts| - 1];
      s != "" && s[0] == first[0] && s[|s| - 1] == last[|last| - 1]
  {
    if |parts| > 1 {
      var rest := parts[1..];
      assert forall i :: 0 <= i < |rest| ==> rest[i] == parts[i + 1];
      JoinEdges(rest, sep);
      var tail := Join(rest, sep);
      assert Join(parts, sep) == parts[0] + [sep] + tail;
      assert rest[|rest| - 1] == parts[|parts| - 1];
    }
  }

  /** When no truthy argument begins or ends with a space, neither does the
      class name: Cx adds no space at either end. */
  lemma CxNoEdgeSpace(args: seq<Option<string>>)
    requires forall i :: 0 <= i < |args| && Truthy(args[i]) ==> args[i].value[0] != ' ' && args[i].value[|args[i].value| - 1] != ' '
    ensures var s := Cx(args); s == "" || (s[0] != ' ' && s[|s| - 1] != ' ')
  {
    var parts := Truthies(args);
    if parts != [] {
      assert forall i :: 0 <= i < |parts| ==> parts[i] in parts;
      JoinEdges(parts, ' ');
    }
  }

}
