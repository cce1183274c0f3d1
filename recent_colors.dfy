/**
 * The recent-colours list behind the palette: most recent first, no colour
 * twice, at most four entries.
 */
module RecentColors {

  const CAPACITY: nat := 4
  const INITIAL: seq<string> := ["#000000"]

  predicate Distinct(cs: seq<string>) {
    forall i, j :: 0 <= i < j < |cs| ==> cs[i] != cs[j]
  }

  /** `prev.filter(c => c !== colour)`. */
  function Without(cs: seq<string>, colour: string): (r: seq<string>)
    ensures forall x :: x in r <==> x in cs && x != colour
    ensures |r| <= |cs|
  {
    if cs == [] then []
    else if cs[0] != colour then [cs[0]] + Without(cs[1..], colour)
    else Without(cs[1..], colour)
  }

  /** Filtering distributes over concatenation, so the kept colours keep their order. */
  lemma {:induction false} WithoutConcat(a: seq<string>, b: seq<string>, colour: string)
    ensures Without(a + b, colour) == Without(a, colour) + Without(b, colour)
  {
    if a == [] {
      assert a + b == b;
    } else {
      assert (a + b)[1..] == a[1..] + b;
      WithoutConcat(a[1..], b, colour);
    }
  }

  /** A list without the colour is its own filter. */
  lemma {:induction false} WithoutAbsent(cs: seq<string>, colour: string)
    requires colour !in cs
    ensures Without(cs, colour) == cs
  {
    if cs != [] {
      WithoutAbsent(cs[1..], colour);
      assert cs == [cs[0]] + cs[1..];
    }
  }

  /** Filtering a duplicate-free list leaves it duplicate-free. */
  lemma {:induction false} WithoutKeepsDistinct(cs: seq<string>, colour: string)
    requires Distinct(cs)
    ensures Distinct(Without(cs, colour))
  {
    if cs != [] {
      var t := cs[1..];
      assert Distinct(t) by {
        forall i, j | 0 <= i < j < |t| ensures t[i] != t[j] {
          assert t[i] == cs[i + 1] && t[j] == cs[j + 1];
        }
      }
      WithoutKeepsDistinct(t, colour);
      if cs[0] != colour {
        assert cs[0] !in t by {
          forall j | 0 <= j < |t| ensures t[j] != cs[0] {
            assert t[j] == cs[j + 1];
          }
        }
        ConsDistinct(cs[0], Without(t, colour));
      }
    }
  }

  lemma ConsDistinct(c: string, t: seq<string>)
    requires Distinct(t) && c !in t
    ensures Distinct([c] + t)
  {
    var s := [c] + t;
    forall i, j | 0 <= i < j < |s| ensures s[i] != s[j] {
      assert s[j] == t[j - 1];
      if i > 0 {
        assert s[i] == t[i - 1];
      }
    }
  }

  /** `s.slice(0, n)`: the first `n` elements, or all of them when there are fewer. */
  function Take(s: seq<string>, n: nat): (r: seq<string>)
    ensures |r| == if |s| < n then |s| else n
    ensures r == s[..|r|]
  {
    if |s| <= n then s else s[..n]
  }

  /**
   * The list after picking `colour`: the colour moves to the front, its older
   * occurrence is dropped, and the list is cut to four entries.
   */
  function Select(recent: seq<string>, colour: string): (r: seq<string>)
    ensures |r| > 0 && r[0] == colour
    ensures |r| <= CAPACITY
    ensures |r| == if |Without(recent, colour)| < CAPACITY - 1 then 1 + |Without(recent, colour)| else CAPACITY
    ensures r[1..] == Take(Without(recent, colour), CAPACITY - 1)
    ensures multiset(r)[colour] == 1
    ensures Distinct(recent) ==> Distinct(r)
  {
    var filtered := Without(recent, colour);
    var r := Take([colour] + filtered, CAPACITY);
    FrontThenRest(colour, filtered, r);
    assert Distinct(recent) ==> Distinct(filtered) by {
      if Distinct(recent) {
        WithoutKeepsDistinct(recent, colour);
      }
    }
    r
  }

  /** The shape of `[colour, ...rest].slice(0, 4)` when `rest` does not hold the colour. */
  lemma FrontThenRest(colour: string, rest: seq<string>, r: seq<string>)
    requires colour !in rest && r == Take([colour] + rest, CAPACITY)
    ensures r == [colour] + r[1..] && r[1..] == Take(rest, CAPACITY - 1)
    ensures colour !in r[1..] && multiset(r)[colour] == 1
    ensures Distinct(rest) ==> Distinct(r)
  {
    assert r[1..] == Take(rest, CAPACITY - 1);
    assert r == [colour] + r[1..];
    var t := r[1..];
    assert colour !in t by {
      forall j | 0 <= j < |t| ensures t[j] != colour {
        assert t[j] == rest[j] && rest[j] in rest;
      }
    }
    assert multiset(r) == multiset{colour} + multiset(t);
    if Distinct(rest) {
      assert Distinct(t) by {
        forall i, j | 0 <= i < j < |t| ensures t[i] != t[j] {
          assert t[i] == rest[i] && t[j] == rest[j];
        }
      }
      ConsDistinct(colour, t);
    }
  }

  /** Picking the same colour twice in a row changes nothing the second time. */
  lemma SelectIdempotent(recent: seq<string>, colour: string)
    ensures Select(Select(recent, colour), colour) == Select(recent, colour)
  {
    var r := Select(recent, colour);
    assert r == [colour] + r[1..];
    assert colour !in r[1..];
    WithoutAbsent(r[1..], colour);
    assert Without(r, colour) == Without(r[1..], colour);
  }
}
