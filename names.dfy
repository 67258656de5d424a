/** Domain names as dnspython's `dns.name.Name` holds them: a sequence of
    labels, most specific first, that is either absolute (it ends in the root
    label) or relative. */
module Names {
  import opened Wrappers
  import opened Text

  datatype Name = Name(labels: seq<string>, absolute: bool)

  /** `dns.name.root`, the name `.`. */
  const Root := Name([], true)

  /** `dns.name.empty`, the relative name `@` that a zone uses for its apex. */
  const Empty := Name([], false)

  /** `len(name)`: the number of labels, counting the root label of an absolute name. */
  function Length(n: Name): nat
  {
    |n.labels| + if n.absolute then 1 else 0
  }

  /** `name.to_text()` for labels that need no escaping. */
  function ToText(n: Name): string
  {
    if n.absolute then Join(n.labels, '.') + "."
    else if n.labels == [] then "@"
    else Join(n.labels, '.')
  }

  /** The longest label a name may hold, in octets. */
  const MaxLabelLength := 63

  /** The longest name, in octets on the wire. */
  const MaxNameLength := 255

  /** The octets a list of labels takes on the wire: each label's text after its length octet. */
  function LabelsWireLength(labels: seq<string>): nat
  {
    if labels == [] then 0 else |labels[0]| + 1 + LabelsWireLength(labels[1..])
  }

  /** The octets a name takes on the wire, counting the root label of an absolute name. */
  function WireLength(n: Name): nat
  {
    LabelsWireLength(n.labels) + if n.absolute then 1 else 0
  }

  /** No label is longer than 63 octets. */
  predicate LabelsFit(labels: seq<string>)
  {
    forall i | 0 <= i < |labels| :: |labels[i]| <= MaxLabelLength
  }

  /** The names dnspython can hold: no label over 63 octets and at most 255 octets in all. */
  predicate Fits(n: Name)
  {
    LabelsFit(n.labels) && WireLength(n) <= MaxNameLength
  }

  /** `dns.name.from_text(text, origin)` for text without a trailing dot whose
      labels are non-empty and need no escaping, which is what every caller passes
      once the text is validated: the dot-separated labels of `text` followed by
      those of `origin`. A label over 63 octets raises `LabelTooLong`, checked
      first; a name over 255 octets raises `NameTooLong`. */
  function FromText(text: string, origin: Name): (r: Result<Name>)
    ensures r.Ok? ==> r.value.absolute == origin.absolute && r.value.labels == Split(text, '.') + origin.labels
    ensures r.Ok? ==> Fits(r.value)
    ensures r.Raise? ==> IsLengthError(r.error)
  {
    var n := Name(Split(text, '.') + origin.labels, origin.absolute);
    if !LabelsFit(n.labels) then Raise(LabelTooLong)
    else if WireLength(n) > MaxNameLength then Raise(NameTooLong)
    else Ok(n)
  }

  /** The wire length of labels that follow each other is the sum of their lengths. */
  lemma {:induction false} LabelsWireLengthConcat(a: seq<string>, b: seq<string>)
    ensures LabelsWireLength(a + b) == LabelsWireLength(a) + LabelsWireLength(b)
  {
    if a != [] {
      assert (a + b)[0] == a[0] && (a + b)[1..] == a[1..] + b;
      LabelsWireLengthConcat(a[1..], b);
    } else {
      assert a + b == b;
    }
  }

  /** The labels of a text take one octet more than the text: each dot becomes a length octet. */
  lemma {:induction false} SplitWireLength(s: string)
    ensures LabelsWireLength(Split(s, '.')) == |s| + 1
  {
    if s != [] {
      var rest := Split(s[1..], '.');
      SplitWireLength(s[1..]);
      if s[0] == '.' {
        assert Split(s, '.') == [""] + rest;
        assert ([""] + rest)[1..] == rest;
      } else {
        var parts := Split(s, '.');
        assert parts[0] == [s[0]] + rest[0];
        assert parts[1..] == rest[1..];
      }
    }
  }

  /** When `from_text` succeeds, stated on the text itself: every label of the text
      and of the origin fits in 63 octets, and the text with one more octet fits
      beside the origin in 255. Otherwise it raises `LabelTooLong` exactly when some
      label is too long. */
  lemma FromTextIff(text: string, origin: Name)
    ensures FromText(text, origin).Ok? <==>
              LabelsFit(Split(text, '.')) && LabelsFit(origin.labels)
              && |text| + 1 + WireLength(origin) <= MaxNameLength
    ensures FromText(text, origin) == Raise(LabelTooLong) <==>
              !(LabelsFit(Split(text, '.')) && LabelsFit(origin.labels))
  {
    var parts := Split(text, '.');
    LabelsWireLengthConcat(parts, origin.labels);
    SplitWireLength(text);
    LabelsFitConcat(parts, origin.labels);
  }

  /** Labels that follow each other fit exactly when both lists fit. */
  lemma LabelsFitConcat(a: seq<string>, b: seq<string>)
    ensures LabelsFit(a + b) <==> LabelsFit(a) && LabelsFit(b)
  {
    if LabelsFit(a + b) {
      assert forall i | 0 <= i < |a| :: (a + b)[i] == a[i];
      assert forall i | 0 <= i < |b| :: (a + b)[|a| + i] == b[i];
    }
  }

  /** Different texts read below the same origin give different names. */
  lemma FromTextInjective(a: string, b: string, origin: Name)
    requires FromText(a, origin).Ok? && FromText(b, origin).Ok?
    requires FromText(a, origin).value == FromText(b, origin).value
    ensures a == b
  {
    var pa, pb := Split(a, '.'), Split(b, '.');
    assert pa + origin.labels == pb + origin.labels;
    assert pa == (pa + origin.labels)[..|pa|];
    assert pb == (pb + origin.labels)[..|pb|];
    JoinSplit(a, '.');
    JoinSplit(b, '.');
  }

  /** A 64-character label below `com` is too long: the check that validates
      subdomains lets it through, and `from_text` raises. */
  lemma LongLabelRejected()
    ensures FromText(seq(64, _ => 'a') + ".com", Root) == Raise(LabelTooLong)
  {
    var long := seq(64, _ => 'a');
    SplitConcat(long, '.', "com");
    assert long + ".com" == long + ['.'] + "com";
    assert '.' !in long;
    SplitNoSeparator(long, '.');
    SplitNoSeparator("com", '.');
    assert Split(long + ".com", '.')[0] == long;
  }

  /** The exceptions `from_text` raises for a name too long to hold. */
  predicate IsLengthError(e: PyError)
  {
    e == LabelTooLong || e == NameTooLong
  }

  /** Every label is non-empty and free of dots: the names that come out of validated text. */
  predicate WellFormed(n: Name)
  {
    forall i | 0 <= i < |n.labels| :: n.labels[i] != [] && '.' !in n.labels[i]
  }

  /** `name.is_subdomain(other)`: equal to or below `other`; an absolute and a relative name are unrelated. */
  predicate IsSubdomain(n: Name, other: Name)
  {
    n.absolute == other.absolute
    && |other.labels| <= |n.labels|
    && n.labels[|n.labels| - |other.labels|..] == other.labels
  }

  /** `name.relativize(origin)` for a name below `origin`: the labels in front of the origin, as a relative name. */
  function Relativize(n: Name, origin: Name): (r: Name)
    requires IsSubdomain(n, origin)
    ensures !r.absolute
    ensures r.labels + origin.labels == n.labels
    ensures Length(r) == Length(n) - Length(origin)
  {
    Name(n.labels[..|n.labels| - |origin.labels|], false)
  }

  /** `name.derelativize(origin)`: a relative name placed below `origin`. */
  function Derelativize(n: Name, origin: Name): (r: Name)
    requires !n.absolute
    ensures r.absolute == origin.absolute && IsSubdomain(r, origin)
  {
    Name(n.labels + origin.labels, origin.absolute)
  }

  /** Relativizing and then placing the result back below the origin gives the name back. */
  lemma RelativizeRoundTrip(n: Name, origin: Name)
    requires IsSubdomain(n, origin)
    ensures Derelativize(Relativize(n, origin), origin) == n
  {
  }

  /** Reading the text of a validated subdomain below `origin` gives labels that are
      well formed, and those labels render back to the text. */
  lemma {:induction false} FromTextWellFormed(text: string, origin: Name)
    requires forall i | 0 <= i < |Split(text, '.')| :: Split(text, '.')[i] != []
    requires WellFormed(origin)
    ensures FromText(text, origin).Ok? ==> WellFormed(FromText(text, origin).value)
    ensures Join(Split(text, '.'), '.') == text
  {
    var parts := Split(text, '.');
    if FromText(text, origin).Ok? {
      var n := FromText(text, origin).value;
      forall i | 0 <= i < |n.labels| ensures n.labels[i] != [] && '.' !in n.labels[i] {
        if i < |parts| {
          assert n.labels[i] == parts[i];
        } else {
          assert n.labels[i] == origin.labels[i - |parts|];
        }
      }
    }
    JoinSplit(text, '.');
  }

  /** The text of a well-formed absolute name determines it. */
  lemma {:induction false} ToTextInjective(a: Name, b: Name)
    requires a.absolute && b.absolute && WellFormed(a) && WellFormed(b)
    requires ToText(a) == ToText(b)
    ensures a == b
  {
    assert Join(a.labels, '.') == Join(b.labels, '.') by {
      assert Join(a.labels, '.') == ToText(a)[..|ToText(a)| - 1];
      assert Join(b.labels, '.') == ToText(b)[..|ToText(b)| - 1];
    }
    if a.labels != [] && b.labels != [] {
      SplitJoin(a.labels, '.');
      SplitJoin(b.labels, '.');
    } else if a.labels != [] {
      JoinNonEmpty(a.labels);
    } else if b.labels != [] {
      JoinNonEmpty(b.labels);
    }
  }

  lemma JoinNonEmpty(labels: seq<string>)
    requires |labels| >= 1 && labels[0] != []
    ensures Join(labels, '.') != []
  {
    assert |Join(labels, '.')| >= |labels[0]|;
  }
}
