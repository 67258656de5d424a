/** The primary zone origin and its aliases (`records/zone_origins.py`),
    kept most specific first, and the relativisation of query names against
    them. */
module ZoneOrigins {
  import opened Wrappers
  import opened Text
  import opened Tools
  import opened Names

  datatype ZoneOrigins = ZoneOrigins(primary: Name, origins: seq<Name>)

  /** `_to_abs_name`: a validated subdomain read as an absolute name. An invalid
      one raises `ValueError`; a valid one too long for a name raises what
      `from_text` raises. */
  function ToAbsName(raw: string): (r: Result<Name>)
    ensures r.Ok? <==> IsValidSubdomain(raw).success && FromText(raw, Root).Ok?
    ensures !IsValidSubdomain(raw).success ==>
              r == Raise(ValueError("Invalid domain '" + raw + "': " + IsValidSubdomain(raw).error))
    ensures IsValidSubdomain(raw).success && r.Raise? ==>
              r.error == FromText(raw, Root).error && IsLengthError(r.error)
    ensures r.Raise? ==> (r.error.ValueError? <==> !IsValidSubdomain(raw).success)
    ensures r.Ok? ==> r.value.absolute && WellFormed(r.value) && ToText(r.value) == raw + "."
  {
    var v := IsValidSubdomain(raw);
    if !v.success then Raise(ValueError("Invalid domain '" + raw + "': " + v.error))
    else
      match FromText(raw, Root)
      case Raise(e) => Raise(e)
      case Ok(n) =>
        assert AllLabels(Split(raw, '.'));
        FromTextWellFormed(raw, Root);
        assert n.labels == Split(raw, '.');
        Ok(n)
  }

  /** The names `_to_abs_name` accepts: absolute and well formed. */
  predicate IsOrigin(n: Name)
  {
    n.absolute && WellFormed(n)
  }

  /** The sort key `(-len(zone), zone.to_text())`: more labels first, then by text. */
  predicate Precedes(a: Name, b: Name)
  {
    Length(a) > Length(b) || (Length(a) == Length(b) && StrLess(ToText(a), ToText(b)))
  }

  lemma PrecedesIrreflexive(a: Name)
    ensures !Precedes(a, a)
  {
    StrLessIrreflexive(ToText(a));
  }

  lemma PrecedesTransitive(a: Name, b: Name, c: Name)
    requires Precedes(a, b) && Precedes(b, c)
    ensures Precedes(a, c)
  {
    if Length(a) == Length(b) == Length(c) {
      StrLessTransitive(ToText(a), ToText(b), ToText(c));
    }
  }

  /** Two different origins always have distinct keys, so the sort never meets a tie. */
  lemma PrecedesTotal(a: Name, b: Name)
    requires IsOrigin(a) && IsOrigin(b) && a != b
    ensures Precedes(a, b) || Precedes(b, a)
  {
    if Length(a) == Length(b) {
      if ToText(a) == ToText(b) {
        ToTextInjective(a, b);
      }
      StrLessTotal(ToText(a), ToText(b));
    }
  }

  function Elements(s: seq<Name>): set<Name>
  {
    set n | n in s
  }

  predicate StrictlySorted(s: seq<Name>)
  {
    forall i, j | 0 <= i < j < |s| :: Precedes(s[i], s[j])
  }

  predicate AllOrigins(s: seq<Name>)
  {
    forall i | 0 <= i < |s| :: IsOrigin(s[i])
  }

  /** Places `x` in a sorted list, dropping it if it is already there. */
  function Insert(x: Name, s: seq<Name>): seq<Name>
  {
    if s == [] then [x]
    else if x == s[0] then s
    else if Precedes(x, s[0]) then [x] + s
    else [s[0]] + Insert(x, s[1..])
  }

  /** `sorted({...}, key=...)` over the names in `xs`. */
  function SortOrigins(xs: seq<Name>): seq<Name>
  {
    if xs == [] then [] else Insert(xs[0], SortOrigins(xs[1..]))
  }

  lemma ElementsCons(x: Name, s: seq<Name>)
    ensures Elements([x] + s) == {x} + Elements(s)
  {
    assert forall n :: n in [x] + s <==> n == x || n in s;
  }

  lemma ElementsEmpty(s: seq<Name>)
    ensures Elements(s) == {} <==> s == []
  {
    if s != [] {
      assert s[0] in Elements(s);
    }
  }

  /** A name that precedes the head of a sorted list may go in front of it. */
  lemma PrependSorted(x: Name, s: seq<Name>)
    requires StrictlySorted(s) && s != [] && Precedes(x, s[0])
    ensures StrictlySorted([x] + s)
  {
    var r := [x] + s;
    forall i, j | 0 <= i < j < |r| ensures Precedes(r[i], r[j]) {
      if i == 0 && j > 1 {
        PrecedesTransitive(x, s[0], s[j - 1]);
      }
    }
  }

  /** A head that precedes everything in a sorted list keeps the list sorted. */
  lemma ConsSorted(h: Name, rest: seq<Name>)
    requires StrictlySorted(rest)
    requires forall n | n in rest :: Precedes(h, n)
    ensures StrictlySorted([h] + rest)
  {
    var r := [h] + rest;
    forall i, j | 0 <= i < j < |r| ensures Precedes(r[i], r[j]) {
      if i == 0 {
        assert r[j] in rest;
      } else {
        assert r[i] == rest[i - 1] && r[j] == rest[j - 1];
      }
    }
  }

  lemma {:induction false} InsertSorted(x: Name, s: seq<Name>)
    requires IsOrigin(x) && AllOrigins(s) && StrictlySorted(s)
    ensures StrictlySorted(Insert(x, s)) && AllOrigins(Insert(x, s))
    ensures Elements(Insert(x, s)) == Elements(s) + {x}
  {
    if s == [] {
    } else if x == s[0] {
      ElementsCons(s[0], s[1..]);
      assert s == [s[0]] + s[1..];
    } else if Precedes(x, s[0]) {
      PrependSorted(x, s);
      ElementsCons(x, s);
    } else {
      SortedTail(s);
      InsertSorted(x, s[1..]);
      InsertBehindHead(x, s);
    }
  }

  /** A strictly sorted list stays so without its head. */
  lemma SortedTail(s: seq<Name>)
    requires s != [] && StrictlySorted(s)
    ensures StrictlySorted(s[1..])
  {
    forall i, j | 0 <= i < j < |s[1..]| ensures Precedes(s[1..][i], s[1..][j]) {
      assert s[1..][i] == s[i + 1] && s[1..][j] == s[j + 1];
    }
  }

  /** A name after the head goes into the tail, behind the head. */
  lemma InsertBehindHead(x: Name, s: seq<Name>)
    requires IsOrigin(x) && AllOrigins(s) && StrictlySorted(s)
    requires s != [] && x != s[0] && !Precedes(x, s[0])
    requires StrictlySorted(Insert(x, s[1..])) && AllOrigins(Insert(x, s[1..]))
    requires Elements(Insert(x, s[1..])) == Elements(s[1..]) + {x}
    ensures StrictlySorted(Insert(x, s)) && AllOrigins(Insert(x, s))
    ensures Elements(Insert(x, s)) == Elements(s) + {x}
  {
    var rest := Insert(x, s[1..]);
    PrecedesTotal(x, s[0]);
    ElementsCons(s[0], rest);
    ElementsCons(s[0], s[1..]);
    assert s == [s[0]] + s[1..];
    forall n | n in rest ensures Precedes(s[0], n) {
      assert n in Elements(rest);
      if n != x {
        assert n in Elements(s[1..]);
        var k :| 0 <= k < |s[1..]| && s[1..][k] == n;
        assert s[k + 1] == n;
      }
    }
    ConsSorted(s[0], rest);
    assert AllOrigins([s[0]] + rest) by {
      forall i | 0 <= i < |rest| + 1 ensures IsOrigin(([s[0]] + rest)[i]) {
        if i > 0 { assert ([s[0]] + rest)[i] == rest[i - 1]; }
      }
    }
  }

  /** The sorted list is strictly sorted and holds exactly the names given, each once. */
  lemma {:induction false} SortOriginsSorted(xs: seq<Name>)
    requires AllOrigins(xs)
    ensures StrictlySorted(SortOrigins(xs)) && AllOrigins(SortOrigins(xs))
    ensures Elements(SortOrigins(xs)) == Elements(xs)
  {
    if xs != [] {
      SortOriginsSorted(xs[1..]);
      InsertSorted(xs[0], SortOrigins(xs[1..]));
      assert xs == [xs[0]] + xs[1..];
    }
  }

  /** A set has a single strictly sorted arrangement, so the result does not
      depend on the order in which the names were given. */
  lemma {:induction false} SortedUnique(a: seq<Name>, b: seq<Name>)
    requires StrictlySorted(a) && StrictlySorted(b)
    requires Elements(a) == Elements(b)
    ensures a == b
  {
    if a != [] {
      assert a[0] in Elements(a);
      assert a[0] in b;
      assert b[0] in Elements(b);
      if a[0] != b[0] {
        var i :| 0 <= i < |a| && a[i] == b[0];
        var j :| 0 <= j < |b| && b[j] == a[0];
        PrecedesTransitive(a[0], b[0], a[0]);
        PrecedesIrreflexive(a[0]);
      }
      forall n ensures n in a[1..] <==> n in b[1..] {
        if n in a[1..] {
          var i :| 1 <= i < |a| && a[i] == n;
          PrecedesIrreflexive(a[0]);
          assert n in Elements(a);
          assert n in b;
        }
        if n in b[1..] {
          var i :| 1 <= i < |b| && b[i] == n;
          PrecedesIrreflexive(b[0]);
          assert n in Elements(b);
          assert n in a;
        }
      }
      SortedUnique(a[1..], b[1..]);
      assert a == [a[0]] + a[1..] && b == [b[0]] + b[1..];
    } else {
      ElementsEmpty(b);
    }
  }

  /** Each item converted in order; the first conversion that raises ends the pass. */
  function MapResults<X, Y>(xs: seq<X>, f: X -> Result<Y>): (r: Result<seq<Y>>)
    ensures r.Ok? <==> forall i | 0 <= i < |xs| :: f(xs[i]).Ok?
    ensures r.Ok? ==> |r.value| == |xs| && forall i | 0 <= i < |xs| :: r.value[i] == f(xs[i]).value
    ensures r.Raise? ==> exists k | 0 <= k < |xs| ::
              f(xs[k]).Raise? && r.error == f(xs[k]).error && forall i | 0 <= i < k :: f(xs[i]).Ok?
  {
    if xs == [] then Ok([])
    else
      var head := f(xs[0]);
      if head.Raise? then Raise(head.error)
      else
        var tail := MapResults(xs[1..], f);
        assert forall i | 1 <= i < |xs| :: xs[i] == xs[1..][i - 1];
        if tail.Raise? then
          var k :| 0 <= k < |xs[1..]| && f(xs[1..][k]).Raise? && tail.error == f(xs[1..][k]).error
                   && forall i | 0 <= i < k :: f(xs[1..][i]).Ok?;
          assert forall i | 0 <= i < k + 1 :: f(xs[i]).Ok?;
          Raise(tail.error)
        else
          Ok([head.value] + tail.value)
  }

  /** The aliases read as absolute names, in order; the first that raises ends the pass. */
  function AbsNames(raws: seq<string>): (r: Result<seq<Name>>)
    ensures r.Ok? <==> forall i | 0 <= i < |raws| :: ToAbsName(raws[i]).Ok?
    ensures r.Ok? ==> |r.value| == |raws| && forall i | 0 <= i < |raws| :: r.value[i] == ToAbsName(raws[i]).value
    ensures r.Raise? ==> exists k | 0 <= k < |raws| ::
              ToAbsName(raws[k]).Raise? && r.error == ToAbsName(raws[k]).error
              && forall i | 0 <= i < k :: ToAbsName(raws[i]).Ok?
  {
    MapResults(raws, ToAbsName)
  }

  /** `ZoneOrigins(primary, aliases)`: the primary is read first, then the aliases
      in order, and the first that raises decides the error. */
  function New(primary: string, aliases: seq<string>): (r: Result<ZoneOrigins>)
    ensures r.Ok? <==> ToAbsName(primary).Ok? && forall i | 0 <= i < |aliases| :: ToAbsName(aliases[i]).Ok?
    ensures ToAbsName(primary).Raise? ==> r == Raise(ToAbsName(primary).error)
    ensures r.Ok? ==> r.value.primary == ToAbsName(primary).value && Valid(r.value)
    ensures r.Ok? ==> forall n :: n in r.value.origins <==>
                        n == ToAbsName(primary).value
                        || exists i | 0 <= i < |aliases| :: n == ToAbsName(aliases[i]).value
  {
    var p := ToAbsName(primary);
    if p.Raise? then Raise(p.error)
    else
      var a := AbsNames(aliases);
      if a.Raise? then Raise(a.error)
      else
        var names := [p.value] + a.value;
        SortOriginsSorted(names);
        ListedNames(p.value, a.value);
        assert forall n :: n in SortOrigins(names) <==> n in Elements(SortOrigins(names));
        Ok(ZoneOrigins(p.value, SortOrigins([p.value] + a.value)))
  }

  /** The names of a list with a head and a tail. */
  lemma ListedNames(p: Name, a: seq<Name>)
    ensures forall n :: n in Elements([p] + a) <==> n == p || exists i | 0 <= i < |a| :: n == a[i]
  {
    forall n | n in Elements([p] + a) && n != p ensures exists i | 0 <= i < |a| :: n == a[i] {
      var j :| 0 <= j < |[p] + a| && ([p] + a)[j] == n;
      assert n == a[j - 1];
    }
    forall i | 0 <= i < |a| ensures a[i] in Elements([p] + a) {
      assert ([p] + a)[i + 1] == a[i];
    }
  }

  /** What every `ZoneOrigins` holds: distinct origins, sorted, the primary among them. */
  predicate Valid(zo: ZoneOrigins)
  {
    StrictlySorted(zo.origins) && AllOrigins(zo.origins) && zo.primary in zo.origins
  }

  /** The first origin `n` is a subdomain of, if any: the generator expression under `next`. */
  function FirstMatch(origins: seq<Name>, n: Name): (r: Option<nat>)
    ensures r.None? <==> forall i | 0 <= i < |origins| :: !IsSubdomain(n, origins[i])
    ensures r.Some? ==> (r.value < |origins| && IsSubdomain(n, origins[r.value])
                        && forall i | 0 <= i < r.value :: !IsSubdomain(n, origins[i]))
  {
    if origins == [] then None
    else if IsSubdomain(n, origins[0]) then Some(0)
    else
      match FirstMatch(origins[1..], n)
      case None => None
      case Some(k) => Some(k + 1)
  }

  /** `relativize`: a relative name as it is; an absolute name relative to the
      first matching origin, or `None` below none of them. */
  function RelativizeName(zo: ZoneOrigins, n: Name): (r: Option<Name>)
    ensures !n.absolute ==> r == Some(n)
    ensures n.absolute ==> (r.None? <==> forall o | o in zo.origins :: !IsSubdomain(n, o))
    ensures n.absolute && r.Some? ==> !r.value.absolute
  {
    if !n.absolute then Some(n)
    else
      match FirstMatch(zo.origins, n)
      case None => None
      case Some(k) => Some(Relativize(n, zo.origins[k]))
  }

  /** The origin an absolute name is relativised against is the most specific
      one: every other origin above the name is also above that origin, and
      putting the origin back after the result gives the name. */
  lemma {:induction false} RelativizeMostSpecific(zo: ZoneOrigins, n: Name)
    requires Valid(zo) && n.absolute && RelativizeName(zo, n).Some?
    ensures exists o | o in zo.origins ::
              IsSubdomain(n, o)
              && RelativizeName(zo, n).value == Relativize(n, o)
              && Derelativize(RelativizeName(zo, n).value, o) == n
              && forall o' | o' in zo.origins && IsSubdomain(n, o') :: IsSubdomain(o, o') && Length(o') <= Length(o)
  {
    var k := FirstMatch(zo.origins, n).value;
    var o := zo.origins[k];
    forall o' | o' in zo.origins && IsSubdomain(n, o') ensures IsSubdomain(o, o') && Length(o') <= Length(o) {
      var j :| 0 <= j < |zo.origins| && zo.origins[j] == o';
      if j != k {
        assert k < j;
        assert Precedes(o, o');
      }
      SuffixOfSuffix(n, o, o');
    }
  }

  /** Of two origins above a name, the longer lies below the shorter. */
  lemma SuffixOfSuffix(n: Name, o: Name, o': Name)
    requires IsSubdomain(n, o) && IsSubdomain(n, o') && |o'.labels| <= |o.labels|
    ensures IsSubdomain(o, o')
  {
    var suffix := o.labels[|o.labels| - |o'.labels|..];
    assert suffix == n.labels[|n.labels| - |o'.labels|..];
  }
}
