/** JavaScript's `split` at a one-unit separator, for any alphabet. */
module TextSplit {

  function Split<T(==)>(text: seq<T>, sep: T): (parts: seq<seq<T>>)
    ensures parts != []
  {
    if text == [] then [[]]
    else if text[0] == sep then [[]] + Split(text[1..], sep)
    else Glue(text[0], Split(text[1..], sep))
  }

  /** The parts with one more unit in front of the first. */
  function Glue<T>(c: T, parts: seq<seq<T>>): (r: seq<seq<T>>)
    requires parts != []
    ensures |r| == |parts|
  {
    [[c] + parts[0]] + parts[1..]
  }

  /** All parts but the last: those a separator has ended. */
  function Front<T>(parts: seq<seq<T>>): seq<seq<T>>
    requires parts != []
  {
    parts[..|parts| - 1]
  }

  function Last<T>(parts: seq<seq<T>>): seq<T>
    requires parts != []
  {
    parts[|parts| - 1]
  }

  /** The parts put back together. */
  function Join<T>(parts: seq<seq<T>>, sep: T): seq<T>
    requires parts != []
  {
    if |parts| == 1 then parts[0] else parts[0] + [sep] + Join(parts[1..], sep)
  }

  lemma SplitCons<T>(c: T, t: seq<T>, sep: T)
    ensures Split([c] + t, sep) == if c == sep then [[]] + Split(t, sep) else Glue(c, Split(t, sep))
  {
    assert ([c] + t)[1..] == t;
  }

  lemma GlueAppend<T>(c: T, x: seq<seq<T>>, y: seq<seq<T>>)
    requires x != []
    ensures Glue(c, x + y) == Glue(c, x) + y
  {
    assert (x + y)[1..] == x[1..] + y;
  }

  lemma GlueEnds<T>(c: T, parts: seq<seq<T>>)
    requires parts != []
    ensures |parts| > 1 ==> Front(Glue(c, parts)) == Glue(c, Front(parts)) && Last(Glue(c, parts)) == Last(parts)
    ensures |parts| == 1 ==> Front(Glue(c, parts)) == [] && Last(Glue(c, parts)) == [c] + Last(parts)
  {
  }

  lemma FrontAppend<T>(x: seq<seq<T>>, y: seq<seq<T>>)
    requires y != []
    ensures Front(x + y) == x + Front(y) && Last(x + y) == Last(y)
  {
  }

  /** Appending text only extends the last part and adds parts after it. */
  lemma {:induction false} SplitAppend<T>(a: seq<T>, b: seq<T>, sep: T)
    ensures Split(a + b, sep) == Front(Split(a, sep)) + Split(Last(Split(a, sep)) + b, sep)
  {
    if a == [] {
      assert a + b == b && Last(Split(a, sep)) + b == b;
    } else {
      var c, t := a[0], a[1..];
      assert a == [c] + t && a + b == [c] + (t + b);
      SplitCons(c, t, sep);
      SplitCons(c, t + b, sep);
      SplitAppend(t, b, sep);
      if c == sep {
        FrontAppend([[]], Split(t, sep));
      } else {
        SplitAppendGlued(c, Split(t, sep), b, sep);
      }
    }
  }

  /** Putting a unit in front commutes with appending after the last part. */
  lemma SplitAppendGlued<T>(c: T, parts: seq<seq<T>>, b: seq<T>, sep: T)
    requires parts != [] && c != sep
    ensures Glue(c, Front(parts) + Split(Last(parts) + b, sep))
         == Front(Glue(c, parts)) + Split(Last(Glue(c, parts)) + b, sep)
  {
    GlueEnds(c, parts);
    var rest := Split(Last(parts) + b, sep);
    if |parts| > 1 {
      GlueAppend(c, Front(parts), rest);
    } else {
      assert Front(parts) + rest == rest && Front(Glue(c, parts)) == [];
      assert [c] + Last(parts) + b == [c] + (Last(parts) + b);
      SplitCons(c, Last(parts) + b, sep);
    }
  }

  lemma {:induction false} SplitWhole<T>(part: seq<T>, sep: T)
    requires sep !in part
    ensures Split(part, sep) == [part]
  {
    if part != [] {
      assert part == [part[0]] + part[1..];
      SplitCons(part[0], part[1..], sep);
      SplitWhole(part[1..], sep);
    }
  }

  lemma SplitFirst<T>(part: seq<T>, rest: seq<T>, sep: T)
    requires sep !in part
    ensures Split(part + [sep] + rest, sep) == [part] + Split(rest, sep)
  {
    assert part + [sep] + rest == part + ([sep] + rest);
    SplitPast(part, rest, sep);
  }

  lemma {:induction false} SplitPast<T>(part: seq<T>, rest: seq<T>, sep: T)
    requires sep !in part
    ensures Split(part + ([sep] + rest), sep) == [part] + Split(rest, sep)
  {
    if part == [] {
      assert part + ([sep] + rest) == [sep] + rest;
      SplitCons(sep, rest, sep);
    } else {
      assert part == [part[0]] + part[1..];
      assert part + ([sep] + rest) == [part[0]] + (part[1..] + ([sep] + rest));
      SplitCons(part[0], part[1..] + ([sep] + rest), sep);
      SplitPast(part[1..], rest, sep);
      GlueAppend(part[0], [part[1..]], Split(rest, sep));
    }
  }

  /** Splitting undoes joining. */
  lemma {:induction false} SplitInvertsJoin<T>(parts: seq<seq<T>>, sep: T)
    requires parts != [] && forall p :: p in parts ==> sep !in p
    ensures Split(Join(parts, sep), sep) == parts
  {
    if |parts| == 1 {
      SplitWhole(parts[0], sep);
    } else {
      SplitFirst(parts[0], Join(parts[1..], sep), sep);
      SplitInvertsJoin(parts[1..], sep);
    }
  }

  /** Joining undoes splitting, and no part holds the separator. */
  lemma {:induction false} JoinInvertsSplit<T>(text: seq<T>, sep: T)
    ensures Join(Split(text, sep), sep) == text
    ensures forall p :: p in Split(text, sep) ==> sep !in p
  {
    if text != [] {
      var rest := Split(text[1..], sep);
      JoinInvertsSplit(text[1..], sep);
      assert text == [text[0]] + text[1..];
      if text[0] == sep {
        assert ([[]] + rest)[1..] == rest;
      } else {
        GlueJoin(text[0], rest, sep);
        forall p | p in Glue(text[0], rest) ensures sep !in p {
          assert p in rest || p == [text[0]] + rest[0];
        }
      }
    }
  }

  lemma GlueJoin<T>(c: T, parts: seq<seq<T>>, sep: T)
    requires parts != []
    ensures Join(Glue(c, parts), sep) == [c] + Join(parts, sep)
  {
    if |parts| > 1 {
      assert Glue(c, parts)[1..] == parts[1..];
    }
  }

  lemma {:induction false} JoinAvoids<T>(parts: seq<seq<T>>, sep: T, x: T)
    requires parts != [] && x != sep && forall p :: p in parts ==> x !in p
    ensures x !in Join(parts, sep)
  {
    if |parts| > 1 {
      JoinAvoids(parts[1..], sep, x);
    }
  }
}
