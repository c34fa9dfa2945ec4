/** The e-mail pattern of the contact form,
      ^[^\s@]+@[^\s@]+\.[^\s@]+$
    as a hand-written recogniser, and the proof that it accepts exactly the
    strings `L@A.B` with `L`, `A`, `B` non-empty and free of `@` and white
    space. */
module EmailPattern {
  import opened Wrappers
  import opened Text

  /** `[^\s@]` */
  predicate IsAddressChar(c: char) {
    c != '@' && !IsSpace(c)
  }

  predicate AllAddressChars(s: string) {
    forall i :: 0 <= i < |s| ==> IsAddressChar(s[i])
  }

  /** `[^\s@]+` */
  predicate IsAtom(s: string) {
    s != [] && AllAddressChars(s)
  }

  /** Position of the first occurrence of `c`, if any. */
  function IndexOf(s: string, c: char): (r: Option<nat>)
    ensures r.Some? ==> r.value < |s| && s[r.value] == c && c !in s[..r.value]
    ensures r.None? ==> c !in s
  {
    if s == [] then None
    else if s[0] == c then Some(0)
    else match IndexOf(s[1..], c)
      case Some(i) => assert s[..i + 1] == [s[0]] + s[1..][..i]; Some(i + 1)
      case None => None
  }

  /** The part after `@`: no `@` or white space, and a `.` that is neither
      its first nor its last character. */
  predicate IsDomain(d: string) {
    AllAddressChars(d) && |d| >= 3 && '.' in d[1..|d| - 1]
  }

  /** The recogniser: the text before the first `@` is non-empty and free of
      white space, and the text after it is a domain. The pattern is tested
      on the untrimmed input, so an accepted address holds no white space
      at all. */
  function IsValidEmail(s: string): (b: bool)
    ensures b ==> |s| >= 5 && s[0] != '@' && s[|s| - 1] != '@'
    ensures b ==> forall k :: 0 <= k < |s| ==> !IsSpace(s[k])
  {
    match IndexOf(s, '@')
    case None => false
    case Some(i) =>
      var ok := i > 0 && AllAddressChars(s[..i]) && IsDomain(s[i + 1..]);
      if ok then NoSpaceAround(s, i); true else false
  }

  /** A string split at an `@` into two parts free of white space has none. */
  lemma NoSpaceAround(s: string, i: nat)
    requires i < |s| && s[i] == '@'
    requires AllAddressChars(s[..i]) && AllAddressChars(s[i + 1..])
    ensures forall k :: 0 <= k < |s| ==> !IsSpace(s[k])
  {
    forall k | 0 <= k < |s| ensures !IsSpace(s[k]) {
      if k < i {
        assert s[k] == s[..i][k];
      } else if k > i {
        assert s[k] == s[i + 1..][k - i - 1];
      }
    }
  }

  /** The pattern's own reading of `s`: local part, `@`, name, `.`, suffix. */
  predicate EmailShape(s: string, local: string, name: string, suffix: string) {
    IsAtom(local) && IsAtom(name) && IsAtom(suffix) && s == local + "@" + name + "." + suffix
  }

  /** Every `L@A.B` is accepted. */
  lemma EmailComplete(s: string, local: string, name: string, suffix: string)
    requires EmailShape(s, local, name, suffix)
    ensures IsValidEmail(s)
  {
    var d := name + "." + suffix;
    assert s == local + ("@" + d);
    IndexOfPast(local, '@', "@" + d);
    assert s[..|local|] == local && s[|local| + 1..] == d;
    assert d[1..|d| - 1][|name| - 1] == '.';
    assert AllAddressChars(d) by {
      forall i | 0 <= i < |d| ensures IsAddressChar(d[i]) {
        if i < |name| { assert d[i] == name[i]; }
        else if i > |name| { assert d[i] == suffix[i - |name| - 1]; }
      }
    }
  }

  lemma {:induction false} IndexOfPast(a: string, c: char, b: string)
    requires c !in a && b != [] && b[0] == c
    ensures IndexOf(a + b, c) == Some(|a|)
  {
    if a == [] {
      assert a + b == b;
    } else {
      assert (a + b)[1..] == a[1..] + b;
      IndexOfPast(a[1..], c, b);
    }
  }

  /** Every accepted string is some `L@A.B`. */
  lemma EmailSound(s: string) returns (local: string, name: string, suffix: string)
    requires IsValidEmail(s)
    ensures EmailShape(s, local, name, suffix)
  {
    var i := IndexOf(s, '@').value;
    local, name, suffix := SplitAt(s, i);
  }

  /** The split behind `EmailSound`, once the first `@` is at `i`. */
  lemma SplitAt(s: string, i: nat) returns (local: string, name: string, suffix: string)
    requires 0 < i < |s| && s[i] == '@' && AllAddressChars(s[..i]) && IsDomain(s[i + 1..])
    ensures EmailShape(s, local, name, suffix)
  {
    var d := s[i + 1..];
    var j :| 0 <= j < |d| - 2 && d[1..|d| - 1][j] == '.';
    assert d[j + 1] == '.';
    local, name, suffix := s[..i], d[..j + 1], d[j + 2..];
    AddressCharsSlice(d, 0, j + 1);
    AddressCharsSlice(d, j + 2, |d|);
    assert d == name + "." + suffix;
    assert s == s[..i] + "@" + d;
  }

  lemma AddressCharsSlice(d: string, lo: nat, hi: nat)
    requires lo <= hi <= |d| && AllAddressChars(d)
    ensures AllAddressChars(d[lo..hi])
  {
    forall k | 0 <= k < hi - lo ensures IsAddressChar(d[lo..hi][k]) {
      assert d[lo..hi][k] == d[lo + k];
    }
  }

  /** The recogniser accepts exactly the strings of the form `L@A.B`. */
  lemma EmailAcceptsExactly(s: string)
    ensures IsValidEmail(s) <==> exists l, a, b :: EmailShape(s, l, a, b)
  {
    if IsValidEmail(s) {
      var l, a, b := EmailSound(s);
    }
    forall l, a, b | EmailShape(s, l, a, b) ensures IsValidEmail(s) {
      EmailComplete(s, l, a, b);
    }
  }
}
