/** The avatar fallback of a contact card: the initials of the contact's
    name. */
module ContactCard {
  import opened Text

  /** `s.split(sep)` for a one-character separator: the pieces between
      separators, empty ones included, so there is always one piece more
      than there are separators. */
  function SplitOn(s: string, sep: char): (pieces: seq<string>)
    ensures |pieces| >= 1
    ensures forall i :: 0 <= i < |pieces| ==> sep !in pieces[i]
  {
    if s == [] then [[]]
    else
      var rest := SplitOn(s[1..], sep);
      if s[0] == sep then [[]] + rest
      else [[s[0]] + rest[0]] + rest[1..]
  }

  /** `pieces.join(sep)` for a one-character separator. */
  function JoinWith(pieces: seq<string>, sep: char): string
    requires |pieces| >= 1
  {
    if |pieces| == 1 then pieces[0] else pieces[0] + [sep] + JoinWith(pieces[1..], sep)
  }

  /** Joining the pieces of a split gives back the original string. */
  lemma {:induction false} JoinSplit(s: string, sep: char)
    ensures JoinWith(SplitOn(s, sep), sep) == s
  {
    if s != [] {
      var rest := SplitOn(s[1..], sep);
      JoinSplit(s[1..], sep);
      if s[0] == sep {
        assert SplitOn(s, sep)[1..] == rest;
      } else {
        var ps := SplitOn(s, sep);
        assert ps[1..] == rest[1..];
        if |rest| == 1 {
          assert ps == [[s[0]] + rest[0]];
        } else {
          assert JoinWith(ps, sep) == [s[0]] + (rest[0] + [sep] + JoinWith(rest[1..], sep));
        }
      }
    }
  }

  /** `pieces.map(n => n[0]).join("")`: the first character of every piece;
      an empty piece gives `undefined`, which `join` prints as nothing. */
  function FirstChars(pieces: seq<string>): (r: string)
    ensures |r| <= |pieces|
  {
    if pieces == [] then []
    else (if pieces[0] == [] then [] else [pieces[0][0]]) + FirstChars(pieces[1..])
  }

  /** `s.substring(0, n)` for `n >= 0`. */
  function Prefix(s: string, n: nat): (r: string)
    ensures |r| <= n && |r| <= |s|
    ensures r == s[..|r|]
    ensures |s| <= n ==> r == s
  {
    if |s| <= n then s else s[..n]
  }

  /** `getInitials`. */
  function Initials(name: string): (r: string)
    ensures |r| <= 2
  {
    Prefix(Upper(FirstChars(SplitOn(name, ' '))), 2)
  }

  /** Reference reading of the initials: each character that is not a space
      and is either first or follows a space, in order. `atStart` says
      whether the character before `s` was a space (or there was none). */
  function WordStarts(s: string, atStart: bool): (r: string)
    ensures |r| <= |s|
    ensures ' ' !in r
  {
    if s == [] then []
    else if s[0] == ' ' then WordStarts(s[1..], true)
    else (if atStart then [s[0]] else []) + WordStarts(s[1..], false)
  }

  /** The first characters of the pieces are exactly the word starts: for
      the whole split when `atStart`, and for the pieces after the first
      otherwise (the first piece then continues a word already begun). */
  lemma {:induction false} FirstCharsAreWordStarts(s: string, atStart: bool)
    ensures (if atStart then FirstChars(SplitOn(s, ' ')) else FirstChars(SplitOn(s, ' ')[1..]))
      == WordStarts(s, atStart)
    decreases |s|
  {
    if s != [] {
      var rest := SplitOn(s[1..], ' ');
      var ps := SplitOn(s, ' ');
      if s[0] == ' ' {
        FirstCharsAreWordStarts(s[1..], true);
        assert ps[1..] == rest;
        if atStart {
          assert FirstChars(ps) == FirstChars(rest);
        }
      } else {
        FirstCharsAreWordStarts(s[1..], false);
        assert ps[1..] == rest[1..];
        if atStart {
          assert FirstChars(ps) == [s[0]] + FirstChars(ps[1..]);
        }
      }
    }
  }

  /** The initials are the first two word starts of the name, upper-cased. */
  lemma InitialsOfWords(name: string)
    ensures Initials(name) == Prefix(Upper(WordStarts(name, true)), 2)
  {
    FirstCharsAreWordStarts(name, true);
  }

  /** Spaces alone give no initials, the empty name included. */
  lemma BlankNameHasNoInitials(name: string)
    requires forall i :: 0 <= i < |name| ==> name[i] == ' '
    ensures Initials(name) == ""
  {
    InitialsOfWords(name);
    NoWordStartsInSpaces(name, true);
  }

  lemma {:induction false} NoWordStartsInSpaces(s: string, atStart: bool)
    requires forall i :: 0 <= i < |s| ==> s[i] == ' '
    ensures WordStarts(s, atStart) == ""
    decreases |s|
  {
    if s != [] {
      NoWordStartsInSpaces(s[1..], true);
    }
  }

  /** Only the literal space separates words: a non-empty name without one
      gives the upper-cased first character alone. */
  lemma SingleWordInitial(name: string)
    requires name != [] && ' ' !in name
    ensures Initials(name) == [UpperChar(name[0])]
  {
    InitialsOfWords(name);
    NoLaterWordStarts(name[1..]);
    assert name == [name[0]] + name[1..];
  }

  lemma {:induction false} NoLaterWordStarts(s: string)
    requires ' ' !in s
    ensures WordStarts(s, false) == ""
  {
    if s != [] {
      NoLaterWordStarts(s[1..]);
    }
  }

  /** `ann lee` gives `AL`. */
  lemma TwoWordExample()
    ensures Initials("ann lee") == "AL"
  {
    InitialsOfWords("ann lee");
    assert WordStarts("ann lee", true) == "al";
  }

  /** A third word is cut off, and extra spaces add nothing. */
  lemma ThreeWordExample()
    ensures Initials(" a  b c") == "AB"
  {
    InitialsOfWords(" a  b c");
    assert WordStarts(" b c", false) == "bc";
    assert WordStarts(" a  b c", true) == "abc";
  }
}
