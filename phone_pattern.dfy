/** The phone-number pattern of the contact form,
      ^[+]?[(]?[0-9]{1,4}[)]?[-\s.]?[0-9]{1,4}[-\s.]?[0-9]{1,9}$
    as a hand-written recogniser. `PhoneParts` is the pattern's own reading
    (one value per optional token and per digit group) and `RenderPhone`
    spells such a reading out; `ParsePhone` recovers a reading from a
    string, and the lemmas below show that it accepts exactly the strings
    that some well-formed reading spells. */
module PhonePattern {
  import opened Wrappers
  import opened Text

  /** `[-\s.]` */
  predicate IsSeparator(c: char) {
    c == '-' || c == '.' || IsSpace(c)
  }

  predicate AllDigits(s: string) {
    forall i :: 0 <= i < |s| ==> IsDigit(s[i])
  }

  predicate DigitGroup(s: string, max: nat) {
    1 <= |s| <= max && AllDigits(s)
  }

  predicate OptSeparator(c: Option<char>) {
    c.Some? ==> IsSeparator(c.value)
  }

  function Flag(present: bool, c: char): string {
    if present then [c] else []
  }

  function OptChar(c: Option<char>): string {
    if c.Some? then [c.value] else []
  }

  /** `[0-9]{1,4}[-\s.]?[0-9]{1,9}`: the second group, the optional
      separator, the third group. */
  datatype Tail = Tail(middle: string, sep2: Option<char>, last: string)

  /** `[0-9]{1,4}[)]?[-\s.]?` followed by a Tail. */
  datatype Groups = Groups(area: string, close: bool, sep1: Option<char>, tail: Tail)

  /** A complete reading of the pattern. */
  datatype PhoneParts = PhoneParts(plus: bool, open: bool, groups: Groups)

  predicate WellFormedTail(t: Tail) {
    DigitGroup(t.middle, 4) && OptSeparator(t.sep2) && DigitGroup(t.last, 9)
  }

  predicate WellFormedGroups(g: Groups) {
    DigitGroup(g.area, 4) && OptSeparator(g.sep1) && WellFormedTail(g.tail)
  }

  predicate WellFormedPhone(p: PhoneParts) {
    WellFormedGroups(p.groups)
  }

  function RenderTail(t: Tail): string {
    t.middle + OptChar(t.sep2) + t.last
  }

  function RenderGroups(g: Groups): string {
    g.area + Flag(g.close, ')') + OptChar(g.sep1) + RenderTail(g.tail)
  }

  function RenderPhone(p: PhoneParts): string {
    Flag(p.plus, '+') + Flag(p.open, '(') + RenderGroups(p.groups)
  }

  /** Length of the longest all-digit prefix. */
  function DigitRun(s: string): (n: nat)
    ensures n <= |s| && AllDigits(s[..n])
    ensures n < |s| ==> !IsDigit(s[n])
  {
    if s != [] && IsDigit(s[0]) then 1 + DigitRun(s[1..]) else 0
  }

  /** Splits 2 to 13 digits into a second group of 1 to 4 and a third of 1 to 9. */
  function SplitTail(r: string): (t: Tail)
    requires 2 <= |r| <= 13 && AllDigits(r)
    ensures WellFormedTail(t) && t.sep2.None? && RenderTail(t) == r
  {
    var k := if |r| - 9 >= 1 then |r| - 9 else 1;
    assert r == r[..k] + r[k..];
    Tail(r[..k], None, r[k..])
  }

  /** Splits 2 to 8 digits into a first group and a second group of 1 to 4 each. */
  function SplitHead(r: string): (p: (string, string))
    requires 2 <= |r| <= 8 && AllDigits(r)
    ensures DigitGroup(p.0, 4) && DigitGroup(p.1, 4) && p.0 + p.1 == r
  {
    var k := if |r| >= 5 then 4 else |r| - 1;
    assert r == r[..k] + r[k..];
    (r[..k], r[k..])
  }

  /** Splits 3 to 17 digits, with no token between them, into the three groups. */
  function SplitAll(r: string): (g: Groups)
    requires 3 <= |r| <= 17 && AllDigits(r)
    ensures WellFormedGroups(g) && RenderGroups(g) == r
  {
    var k := if |r| - 9 >= 2 then |r| - 9 else 2;
    var (a, m) := SplitHead(r[..k]);
    assert r == a + m + r[k..];
    Groups(a, false, None, Tail(m, None, r[k..]))
  }

  /** Reads a Tail: a maximal digit run, then either the end of the string
      (the run holds both groups) or one separator and the third group. */
  function ParseTail(v: string): (t: Option<Tail>)
    ensures t.Some? ==> WellFormedTail(t.value) && RenderTail(t.value) == v
  {
    var n := DigitRun(v);
    if n == |v| then
      if 2 <= n <= 13 then Some(SplitTail(v)) else None
    else if 1 <= n <= 4 && IsSeparator(v[n]) && DigitGroup(v[n + 1..], 9) then
      assert v == v[..n] + [v[n]] + v[n + 1..];
      Some(Tail(v[..n], Some(v[n]), v[n + 1..]))
    else
      None
  }

  /** Reads what follows a first group closed by `)`: an optional
      separator (taken whenever present, since a Tail starts with a digit),
      then a Tail. */
  function ParseAfterClose(area: string, w: string): (g: Option<Groups>)
    requires DigitGroup(area, 4)
    ensures g.Some? ==> WellFormedGroups(g.value) && RenderGroups(g.value) == area + [')'] + w
  {
    var sep1 := if w != [] && IsSeparator(w[0]) then Some(w[0]) else None;
    var v := if sep1.Some? then w[1..] else w;
    assert w == OptChar(sep1) + v;
    match ParseTail(v)
    case Some(t) => Some(Groups(area, true, sep1, t))
    case None => None
  }

  /** Reads what follows a digit run `r` ended by the separator `c`: either
      `c` is the first separator (`r` is the first group, a Tail follows) or
      it is the second one (`r` holds the first two groups, the third
      group follows). */
  function ParseAfterSeparator(r: string, c: char, w: string): (g: Option<Groups>)
    requires AllDigits(r) && IsSeparator(c)
    ensures g.Some? ==> WellFormedGroups(g.value) && RenderGroups(g.value) == r + [c] + w
  {
    var t := ParseTail(w);
    if 1 <= |r| <= 4 && t.Some? then
      Some(Groups(r, false, Some(c), t.value))
    else if 2 <= |r| <= 8 && DigitGroup(w, 9) then
      var (a, m) := SplitHead(r);
      Some(Groups(a, false, None, Tail(m, Some(c), w)))
    else
      None
  }

  /** Reads the three groups and the tokens between them. The first digit
      run ends at the end of the string (it holds all three groups), at `)`
      (it is the first group) or at a separator. */
  function ParseGroups(u: string): (g: Option<Groups>)
    ensures g.Some? ==> WellFormedGroups(g.value) && RenderGroups(g.value) == u
  {
    var n := DigitRun(u);
    if n == |u| then
      if 3 <= n <= 17 then Some(SplitAll(u)) else None
    else
      assert u == u[..n] + [u[n]] + u[n + 1..];
      if u[n] == ')' && 1 <= n <= 4 then ParseAfterClose(u[..n], u[n + 1..])
      else if IsSeparator(u[n]) then ParseAfterSeparator(u[..n], u[n], u[n + 1..])
      else None
  }

  /** The recogniser: an optional `+`, an optional `(`, then the groups.
      Taking `+` and `(` whenever present loses nothing, because what
      follows each of them must start with `(` or a digit. */
  function ParsePhone(s: string): (p: Option<PhoneParts>)
    ensures p.Some? ==> WellFormedPhone(p.value) && RenderPhone(p.value) == s
  {
    var plus := s != [] && s[0] == '+';
    var t := if plus then s[1..] else s;
    var open := t != [] && t[0] == '(';
    var u := if open then t[1..] else t;
    assert s == Flag(plus, '+') + Flag(open, '(') + u;
    match ParseGroups(u)
    case Some(g) => Some(PhoneParts(plus, open, g))
    case None => None
  }

  /** `/^[+]?[(]?[0-9]{1,4}[)]?[-\s.]?[0-9]{1,4}[-\s.]?[0-9]{1,9}$/.test(s)` */
  /** An accepted phone number starts with `+`, `(` or a digit, ends with a
      digit and holds 3 to 17 digits. */
  function IsValidPhone(s: string): (b: bool)
    ensures b ==> s != [] && (s[0] == '+' || s[0] == '(' || IsDigit(s[0])) && IsDigit(s[|s| - 1])
    ensures b ==> 3 <= DigitCount(s) <= 17
  {
    match ParsePhone(s)
    case None => false
    case Some(p) => RenderedPhoneShape(p); true
  }

  lemma {:induction false} DigitRunOf(d: string, rest: string)
    requires AllDigits(d)
    requires rest != [] ==> !IsDigit(rest[0])
    ensures DigitRun(d + rest) == |d|
  {
    if d != [] {
      assert (d + rest)[1..] == d[1..] + rest;
      DigitRunOf(d[1..], rest);
    }
  }

  /** Every well-formed Tail is read back. */
  lemma ParseTailComplete(t: Tail)
    requires WellFormedTail(t)
    ensures ParseTail(RenderTail(t)).Some?
  {
    var v := RenderTail(t);
    if t.sep2.Some? {
      DigitRunOf(t.middle, [t.sep2.value] + t.last);
      assert v == t.middle + ([t.sep2.value] + t.last);
      assert v[|t.middle| + 1..] == t.last;
    } else {
      assert v == t.middle + t.last;
      DigitRunOf(v, []);
      assert v + [] == v;
    }
  }

  /** A digit is none of the pattern's punctuation. */
  lemma DigitIsNoSeparator(c: char)
    requires IsDigit(c)
    ensures !IsSeparator(c) && c != ')' && c != '(' && c != '+'
  {
  }

  lemma ParseAfterCloseComplete(area: string, sep1: Option<char>, t: Tail)
    requires DigitGroup(area, 4) && OptSeparator(sep1) && WellFormedTail(t)
    ensures ParseAfterClose(area, OptChar(sep1) + RenderTail(t)).Some?
  {
    var w := OptChar(sep1) + RenderTail(t);
    ParseTailComplete(t);
    if sep1.Some? {
      assert w[0] == sep1.value;
      assert w[1..] == RenderTail(t);
    } else {
      assert w == RenderTail(t);
      assert w[0] == t.middle[0];
      DigitIsNoSeparator(w[0]);
    }
  }

  lemma ParseAfterSeparatorComplete(g: Groups)
    requires WellFormedGroups(g) && !g.close && (g.sep1.Some? || g.tail.sep2.Some?)
    ensures g.sep1.Some? ==> ParseAfterSeparator(g.area, g.sep1.value, RenderTail(g.tail)).Some?
    ensures g.sep1.None? ==> ParseAfterSeparator(g.area + g.tail.middle, g.tail.sep2.value, g.tail.last).Some?
  {
    if g.sep1.Some? {
      ParseTailComplete(g.tail);
    }
  }

  /** How ParseGroups proceeds once the first digit run is known. */
  lemma ParseGroupsStep(r: string, c: char, w: string)
    requires r != [] && AllDigits(r) && !IsDigit(c)
    ensures c == ')' && |r| <= 4 ==> ParseGroups(r + [c] + w) == ParseAfterClose(r, w)
    ensures IsSeparator(c) ==> ParseGroups(r + [c] + w) == ParseAfterSeparator(r, c, w)
  {
    var u := r + [c] + w;
    assert u == r + ([c] + w);
    DigitRunOf(r, [c] + w);
    var n := DigitRun(u);
    assert n == |r| && n < |u|;
    assert u[..n] == r && u[n] == c && u[n + 1..] == w;
  }

  /** Every well-formed Groups value is read back. */
  lemma ParseGroupsComplete(g: Groups)
    requires WellFormedGroups(g)
    ensures ParseGroups(RenderGroups(g)).Some?
  {
    var u := RenderGroups(g);
    var t := g.tail;
    if g.close {
      var w := OptChar(g.sep1) + RenderTail(t);
      assert u == g.area + [')'] + w;
      ParseGroupsStep(g.area, ')', w);
      ParseAfterCloseComplete(g.area, g.sep1, t);
    } else if g.sep1.Some? {
      var w := RenderTail(t);
      assert u == g.area + [g.sep1.value] + w;
      SeparatorIsNoDigit(g.sep1.value);
      ParseGroupsStep(g.area, g.sep1.value, w);
      ParseAfterSeparatorComplete(g);
    } else if t.sep2.Some? {
      var r := g.area + t.middle;
      assert u == r + [t.sep2.value] + t.last;
      SeparatorIsNoDigit(t.sep2.value);
      ParseGroupsStep(r, t.sep2.value, t.last);
      ParseAfterSeparatorComplete(g);
    } else {
      assert u == g.area + t.middle + t.last;
      DigitRunOf(u, []);
      assert u + [] == u;
    }
  }

  /** A separator is neither a digit nor a closing parenthesis. */
  lemma SeparatorIsNoDigit(c: char)
    requires IsSeparator(c)
    ensures !IsDigit(c) && c != ')'
  {
  }

  /** Every well-formed reading is accepted. */
  lemma ParsePhoneComplete(p: PhoneParts)
    requires WellFormedPhone(p)
    ensures IsValidPhone(RenderPhone(p))
  {
    var u := RenderGroups(p.groups);
    assert u[0] == p.groups.area[0];
    DigitIsNoSeparator(u[0]);
    var t := Flag(p.open, '(') + u;
    var s := Flag(p.plus, '+') + t;
    assert RenderPhone(p) == s;
    assert t != [] && t[0] != '+' by {
      if p.open { assert t[0] == '('; } else { assert t == u; }
    }
    assert (if s != [] && s[0] == '+' then s[1..] else s) == t by {
      if p.plus { assert s[0] == '+' && s[1..] == t; } else { assert s == t; }
    }
    assert (if t != [] && t[0] == '(' then t[1..] else t) == u by {
      if p.open { assert t[0] == '(' && t[1..] == u; } else { assert t == u; }
    }
    ParseGroupsComplete(p.groups);
  }

  /** The recogniser accepts exactly the strings the pattern describes. */
  lemma PhoneAcceptsExactly(s: string)
    ensures IsValidPhone(s) <==> exists p :: WellFormedPhone(p) && RenderPhone(p) == s
  {
    if IsValidPhone(s) {
      var p := ParsePhone(s).value;
      assert WellFormedPhone(p) && RenderPhone(p) == s;
    }
    forall p | WellFormedPhone(p) && RenderPhone(p) == s
      ensures IsValidPhone(s)
    {
      ParsePhoneComplete(p);
    }
  }

  /** Number of decimal digits in `s`. */
  function DigitCount(s: string): nat {
    if s == [] then 0 else (if IsDigit(s[0]) then 1 else 0) + DigitCount(s[1..])
  }

  lemma {:induction false} DigitCountAppend(a: string, b: string)
    ensures DigitCount(a + b) == DigitCount(a) + DigitCount(b)
  {
    if a != [] {
      assert (a + b)[0] == a[0];
      assert (a + b)[1..] == a[1..] + b;
      DigitCountAppend(a[1..], b);
    } else {
      assert a + b == b;
    }
  }

  lemma {:induction false} DigitCountAllDigits(s: string)
    requires AllDigits(s)
    ensures DigitCount(s) == |s|
  {
    if s != [] {
      DigitCountAllDigits(s[1..]);
    }
  }

  lemma DigitCountNoDigit(s: string)
    requires |s| <= 1 && (s != [] ==> !IsDigit(s[0]))
    ensures DigitCount(s) == 0
  {
  }

  lemma TailDigitCount(t: Tail)
    requires WellFormedTail(t)
    ensures DigitCount(RenderTail(t)) == |t.middle| + |t.last|
  {
    DigitCountAllDigits(t.middle);
    DigitCountAllDigits(t.last);
    DigitCountNoDigit(OptChar(t.sep2));
    DigitCountAppend(t.middle + OptChar(t.sep2), t.last);
    DigitCountAppend(t.middle, OptChar(t.sep2));
  }

  lemma GroupsDigitCount(g: Groups)
    requires WellFormedGroups(g)
    ensures DigitCount(RenderGroups(g)) == |g.area| + |g.tail.middle| + |g.tail.last|
  {
    TailDigitCount(g.tail);
    DigitCountAllDigits(g.area);
    DigitCountNoDigit(Flag(g.close, ')'));
    DigitCountNoDigit(OptChar(g.sep1));
    var w := RenderTail(g.tail);
    DigitCountAppend(g.area + Flag(g.close, ')') + OptChar(g.sep1), w);
    DigitCountAppend(g.area + Flag(g.close, ')'), OptChar(g.sep1));
    DigitCountAppend(g.area, Flag(g.close, ')'));
  }

  /** A well-formed reading spells between 3 and 17 digits, starts with `+`,
      `(` or a digit, and ends with a digit. */
  lemma RenderedPhoneShape(p: PhoneParts)
    requires WellFormedPhone(p)
    ensures 3 <= DigitCount(RenderPhone(p)) <= 17
    ensures var s := RenderPhone(p); s[0] == '+' || s[0] == '(' || IsDigit(s[0])
    ensures IsDigit(RenderPhone(p)[|RenderPhone(p)| - 1])
  {
    var g := p.groups;
    var s := RenderPhone(p);
    var u := RenderGroups(g);
    GroupsDigitCount(g);
    DigitCountNoDigit(Flag(p.plus, '+'));
    DigitCountNoDigit(Flag(p.open, '('));
    DigitCountAppend(Flag(p.plus, '+') + Flag(p.open, '('), u);
    DigitCountAppend(Flag(p.plus, '+'), Flag(p.open, '('));
    assert u[|u| - 1] == g.tail.last[|g.tail.last| - 1];
    assert s[|s| - 1] == u[|u| - 1];
    if !p.plus && !p.open {
      assert s[0] == u[0] == g.area[0];
    }
  }

  lemma PhoneEndsAreNoSpace(a: char, b: char)
    requires a == '+' || a == '(' || IsDigit(a)
    requires IsDigit(b)
    ensures !IsSpace(a) && !IsSpace(b)
  {
  }

  /** Any phone number the pattern accepts holds 3 to 17 digits and has no
      leading or trailing white space, so it is equal to its own trim: the
      pattern, tested on the untrimmed input, rejects padded input. */
  lemma AcceptedPhoneShape(s: string)
    requires IsValidPhone(s)
    ensures 3 <= DigitCount(s) <= 17
    ensures !IsSpace(s[0]) && !IsSpace(s[|s| - 1])
    ensures Trim(s) == s
  {
    var p := ParsePhone(s).value;
    RenderedPhoneShape(p);
    PhoneEndsAreNoSpace(s[0], s[|s| - 1]);
    TrimOfUnpadded(s);
  }
}
