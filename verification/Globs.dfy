/** Name patterns: globs compiled to regular expressions, and the table filter built from them. */
module Globs {
  import opened Options
  import opened Seqs

  // ---- Globs ----

  /** Patterns of ASCII literals, * and ?: no character classes and no backslashes. */
  predicate Plain(glob: string) {
    forall i :: 0 <= i < |glob| ==> glob[i] != '[' && glob[i] != '\\' && glob[i] as int < 128
  }

  /** path.Match, for names without a slash. */
  predicate GlobMatches(glob: string, name: string)
    decreases |glob|, |name|
  {
    if glob == [] then name == []
    else if glob[0] == '*' then GlobMatches(glob[1..], name) || (name != [] && GlobMatches(glob, name[1..]))
    else name != [] && (glob[0] == '?' || glob[0] == name[0]) && GlobMatches(glob[1..], name[1..])
  }

  // ---- Regular expressions, as text ----

  datatype Atom = Lit(c: char) | AnyChar | AnyString

  const META := "\\.+*?()|[]{}^$"

  const DEFAULT_FILTER := ".*"

  /** What an alternation of plain sequences means, read from left to right; current is the alternative being read.
      Operators other than . and .* are outside this fragment. */
  function Parse(text: string, current: seq<Atom>): Option<seq<seq<Atom>>> {
    if text == [] then Some([current])
    else if text[0] == '|' then
      match Parse(text[1..], []) case None => None case Some(rest) => Some([current] + rest)
    else if text[0] == '\\' then
      if |text| >= 2 && text[1] in META then Parse(text[2..], current + [Lit(text[1])]) else None
    else if text[0] == '.' then
      if |text| >= 2 && text[1] == '*' then Parse(text[2..], current + [AnyString]) else Parse(text[1..], current + [AnyChar])
    else if text[0] in META then None
    else Parse(text[1..], current + [Lit(text[0])])
  }

  /** A whole name against one alternative. */
  predicate AtomsMatch(atoms: seq<Atom>, name: string)
    decreases |atoms|, |name|
  {
    if atoms == [] then name == []
    else match atoms[0]
      case AnyString => AtomsMatch(atoms[1..], name) || (name != [] && AtomsMatch(atoms, name[1..]))
      case AnyChar => name != [] && AtomsMatch(atoms[1..], name[1..])
      case Lit(c) => name != [] && name[0] == c && AtomsMatch(atoms[1..], name[1..])
  }

  predicate Anchored(text: string) {
    |text| >= 4 && text[..2] == "^(" && text[|text| - 2..] == ")$"
  }

  /** Whether a text of the fragment matches a name without a newline: an anchored alternation matches whole names,
      the default text is searched for anywhere and so matches every name. */
  predicate TextMatches(text: string, name: string) {
    text == DEFAULT_FILTER
    || (Anchored(text) && match Parse(text[2..|text| - 2], [])
        case None => false
        case Some(alternatives) => exists i :: 0 <= i < |alternatives| && AtomsMatch(alternatives[i], name))
  }

  /** The texts that mean something. */
  predicate TextCompiles(text: string) {
    text == DEFAULT_FILTER || (Anchored(text) && Parse(text[2..|text| - 2], []).Some?)
  }

  // ---- The compilation ----

  function Quoted(c: char): string {
    if c in META then ['\\', c] else [c]
  }

  /** What is written for one character of a glob. */
  function PieceOf(c: char): string {
    if c == '*' then ".*" else if c == '?' then "." else Quoted(c)
  }

  function RegexOf(glob: string): string {
    if glob == [] then [] else RegexOf(glob[..|glob| - 1]) + PieceOf(glob[|glob| - 1])
  }

  // ---- Character classes are copied ----

  /** The position of the first ], or the length. */
  function Closing(text: string): (i: nat)
    ensures i <= |text| && (i < |text| ==> text[i] == ']') && ']' !in text[..i]
  {
    if text == [] || text[0] == ']' then 0
    else
      var i := 1 + Closing(text[1..]);
      assert text[..i] == [text[0]] + text[1..][..i - 1];
      i
  }

  /** What is written for a class: a leading ! becomes ^, the rest is copied. */
  function ClassText(inside: string): Option<string> {
    if inside == [] || inside == "!" then None
    else if inside[0] == '!' then Some("[^" + inside[1..] + "]")
    else Some("[" + inside + "]")
  }

  /** The text for a whole glob, or none if a class is not closed or has nothing in it. */
  function Translated(glob: string): Option<string> {
    if glob == [] then Some([])
    else if glob[0] == '[' then
      var closing := Closing(glob[1..]);
      if closing == |glob| - 1 then None
      else Prepended(ClassText(glob[1..][..closing]), Translated(glob[closing + 2..]))
    else Prepended(Some(PieceOf(glob[0])), Translated(glob[1..]))
  }

  function Prepended(piece: Option<string>, later: Option<string>): Option<string> {
    if piece.Some? && later.Some? then Some(piece.value + later.value) else None
  }

  lemma PrependNothing(later: Option<string>)
    ensures Prepended(Some(""), later) == later
  {
    if later.Some? {
      assert "" + later.value == later.value;
    }
  }

  lemma PrependTwice(a: string, b: Option<string>, c: Option<string>)
    ensures Prepended(Some(a), Prepended(b, c)) == if b.Some? then Prepended(Some(a + b.value), c) else None
  {
    if b.Some? && c.Some? {
      Associate(a, b.value, c.value);
    }
  }

  /** None stands for the error about a bad pattern. */
  method GlobToRegex(glob: string) returns (regex: Option<string>)
    requires forall i :: 0 <= i < |glob| ==> glob[i] as int < 128
    ensures regex == Translated(glob)
  {
    var text := "";
    var index := 0;
    PrependNothing(Translated(glob));
    assert glob[0..] == glob;
    while index < |glob|
      invariant 0 <= index <= |glob| && Translated(glob) == Prepended(Some(text), Translated(glob[index..]))
    {
      var later := glob[index..];
      match glob[index] {
        case '[' =>
          var closing := Closing(later[1..]);
          if closing == |later| - 1 {
            return None;
          }
          assert later[closing + 2..] == glob[index + closing + 2..];
          var piece := ClassText(glob[index + 1..index + 1 + closing]);
          assert later[1..][..closing] == glob[index + 1..index + 1 + closing];
          PrependTwice(text, piece, Translated(glob[index + closing + 2..]));
          if piece.None? {
            return None;
          }
          text := text + piece.value;
          index := index + closing + 2;
        case c =>
          PrependTwice(text, Some(PieceOf(c)), Translated(glob[index + 1..]));
          assert later[1..] == glob[index + 1..];
          text := text + PieceOf(c);
          index := index + 1;
      }
    }
    assert glob[index..] == [] && text + [] == text;
    regex := Some(text);
  }

  /** A glob as it is meant: single characters, and classes between brackets. */
  datatype Piece = Single(c: char) | Class(text: string)

  predicate ValidPiece(p: Piece) {
    match p
    case Single(c) => c != '['
    case Class(text) => ']' !in text && text != [] && text != "!"
  }

  function WrittenPiece(p: Piece): string {
    match p case Single(c) => [c] case Class(text) => "[" + text + "]"
  }

  function Written(pieces: seq<Piece>): string {
    if pieces == [] then [] else WrittenPiece(pieces[0]) + Written(pieces[1..])
  }

  function RegexPiece(p: Piece): string {
    match p
    case Single(c) => PieceOf(c)
    case Class(text) => "[" + (if text != [] && text[0] == '!' then ['^'] + text[1..] else text) + "]"
  }

  function RegexPieces(pieces: seq<Piece>): string {
    if pieces == [] then [] else RegexPiece(pieces[0]) + RegexPieces(pieces[1..])
  }

  ghost predicate ValidPieces(pieces: seq<Piece>) {
    forall i :: 0 <= i < |pieces| ==> ValidPiece(pieces[i])
  }

  lemma ClosingAt(text: string, rest: string)
    requires ']' !in text
    ensures Closing(text + "]" + rest) == |text|
  {
    var all, i := text + "]" + rest, Closing(text + "]" + rest);
    assert all[|text|] == ']';
    assert forall j :: 0 <= j < i ==> all[..i][j] == all[j];
    assert forall j :: 0 <= j < |text| ==> all[j] == text[j];
  }

  lemma ClassWritten(text: string)
    requires ValidPiece(Class(text))
    ensures ClassText(text) == Some(RegexPiece(Class(text)))
  {
    if text[0] == '!' {
      assert text != "!";
      Associate("[", ['^'], text[1..]);
      assert "[" + ['^'] == "[^";
    }
  }

  lemma ClassTranslated(text: string, later: string)
    requires ValidPiece(Class(text))
    ensures Translated("[" + text + "]" + later) == Prepended(ClassText(text), Translated(later))
  {
    var glob := "[" + text + "]" + later;
    ClosingAt(text, later);
    hide Closing, ClassText, Prepended;
    assert glob[0] == '[' && glob[1..] == text + "]" + later;
    assert glob[1..][..|text|] == text && glob[|text| + 2..] == later;
  }

  lemma PieceTranslated(p: Piece, later: string)
    requires ValidPiece(p)
    ensures Translated(WrittenPiece(p) + later) == Prepended(Some(RegexPiece(p)), Translated(later))
  {
    match p {
      case Single(c) =>
        assert (WrittenPiece(p) + later)[1..] == later;
      case Class(text) =>
        hide Translated, ClassText, RegexPiece;
        ClassTranslated(text, later);
        ClassWritten(text);
    }
  }

  /** Whatever pieces a glob is written from, piece by piece that is what is written for it. */
  lemma {:induction false} PiecesTranslated(pieces: seq<Piece>)
    requires ValidPieces(pieces)
    ensures Translated(Written(pieces)) == Some(RegexPieces(pieces))
  {
    if pieces != [] {
      assert ValidPiece(pieces[0]);
      PiecesTranslated(pieces[1..]);
      hide Translated, WrittenPiece, RegexPiece, ValidPiece;
      PieceTranslated(pieces[0], Written(pieces[1..]));
    }
  }

  lemma OnePieceMore(p: Piece, pieces: seq<Piece>)
    requires ValidPiece(p) && ValidPieces(pieces)
    ensures ValidPieces([p] + pieces) && Written([p] + pieces) == WrittenPiece(p) + Written(pieces)
  {
    hide WrittenPiece, ValidPiece;
    assert ([p] + pieces)[1..] == pieces;
  }

  /** The first piece of a glob that is accepted. */
  lemma FirstPiece(glob: string) returns (p: Piece, rest: string)
    requires glob != [] && Translated(glob).Some?
    ensures ValidPiece(p) && glob == WrittenPiece(p) + rest && Translated(rest).Some?
  {
    if glob[0] == '[' {
      var closing := Closing(glob[1..]);
      p, rest := Class(glob[1..][..closing]), glob[closing + 2..];
      hide Translated;
      assert glob == "[" + glob[1..][..closing] + "]" + rest;
    } else {
      p, rest := Single(glob[0]), glob[1..];
      hide Translated;
      assert glob == [glob[0]] + rest;
    }
  }

  /** A glob is accepted exactly if it can be written from such pieces. */
  lemma {:induction false} TranslatedPieces(glob: string) returns (pieces: seq<Piece>)
    ensures Translated(glob).Some? ==> ValidPieces(pieces) && Written(pieces) == glob
    ensures Translated(glob).None? ==> !exists other :: ValidPieces(other) && Written(other) == glob
    decreases |glob|
  {
    pieces := [];
    if Translated(glob).None? {
      hide Translated, Written, ValidPieces;
      forall other | ValidPieces(other)
        ensures Written(other) != glob
      {
        PiecesTranslated(other);
      }
    } else if glob != [] {
      var p, rest := FirstPiece(glob);
      hide Translated, ValidPieces, ValidPiece;
      assert |rest| < |glob|;
      var later := TranslatedPieces(rest);
      OnePieceMore(p, later);
      pieces := [p] + later;
    }
  }

  /** Without classes the text is the one below. */
  lemma {:induction false} PlainTranslated(glob: string)
    requires Plain(glob)
    ensures Translated(glob) == Some(RegexOf(glob))
  {
    if glob != [] {
      PlainTranslated(glob[1..]);
      RegexFront(glob);
    }
  }

  function AtomOf(c: char): Atom {
    if c == '*' then AnyString else if c == '?' then AnyChar else Lit(c)
  }

  function AtomsOf(glob: string): seq<Atom> {
    seq(|glob|, i requires 0 <= i < |glob| => AtomOf(glob[i]))
  }

  lemma {:induction false} RegexFront(glob: string)
    requires glob != []
    ensures RegexOf(glob) == PieceOf(glob[0]) + RegexOf(glob[1..])
  {
    if |glob| > 1 {
      var n := |glob| - 1;
      RegexFront(glob[..n]);
      assert glob[..n][1..] == glob[1..][..n - 1];
      assert RegexOf(glob[1..]) == RegexOf(glob[1..][..n - 1]) + PieceOf(glob[n]);
    } else {
      assert glob[..0] == [] && glob[1..] == [];
    }
  }

  /** A piece is never read as the beginning of something else: after ? comes no bare *, since a literal * is quoted
      and a glob's * is written with its own dot. */
  lemma RegexStart(glob: string, rest: string)
    requires rest == [] || rest[0] == '|'
    ensures RegexOf(glob) + rest == [] || (RegexOf(glob) + rest)[0] != '*'
  {
    if glob != [] {
      RegexFront(glob);
    }
  }

  /** Reading back what was written for one glob. */
  lemma {:induction false} ParseGlob(glob: string, rest: string, current: seq<Atom>)
    requires rest == [] || rest[0] == '|'
    ensures Parse(RegexOf(glob) + rest, current) == Parse(rest, current + AtomsOf(glob))
  {
    if glob == [] {
      assert RegexOf(glob) + rest == rest && current + AtomsOf(glob) == current;
    } else {
      hide Parse, RegexOf, PieceOf, AtomOf;
      var c, tail := glob[0], RegexOf(glob[1..]) + rest;
      RegexStart(glob[1..], rest);
      RegexConcat(glob, rest);
      ParsePiece(c, tail, current);
      ParseGlob(glob[1..], rest, current + [AtomOf(c)]);
      AtomsFront(glob, current);
    }
  }

  lemma RegexConcat(glob: string, rest: string)
    requires glob != []
    ensures RegexOf(glob) + rest == PieceOf(glob[0]) + (RegexOf(glob[1..]) + rest)
  {
    RegexFront(glob);
    hide RegexOf, PieceOf;
    Associate(PieceOf(glob[0]), RegexOf(glob[1..]), rest);
  }

  lemma AtomsFront(glob: string, current: seq<Atom>)
    requires glob != []
    ensures current + [AtomOf(glob[0])] + AtomsOf(glob[1..]) == current + AtomsOf(glob)
  {
    hide AtomOf;
    assert AtomsOf(glob) == [AtomOf(glob[0])] + AtomsOf(glob[1..]);
    Associate(current, [AtomOf(glob[0])], AtomsOf(glob[1..]));
  }

  lemma ParsePiece(c: char, tail: string, current: seq<Atom>)
    requires tail == [] || tail[0] != '*'
    ensures Parse(PieceOf(c) + tail, current) == Parse(tail, current + [AtomOf(c)])
  {
    var text := PieceOf(c) + tail;
    if |PieceOf(c)| == 2 {
      assert text[2..] == tail;
    } else {
      assert text[1..] == tail;
    }
  }

  function Joined(parts: seq<string>): string {
    if parts == [] then [] else if |parts| == 1 then parts[0] else parts[0] + "|" + Joined(parts[1..])
  }

  function Regexes(globs: seq<string>): seq<string> {
    seq(|globs|, i requires 0 <= i < |globs| => RegexOf(globs[i]))
  }

  /** The texts for all globs, or none if one of them is bad. */
  function TranslatedAll(globs: seq<string>): Option<seq<string>> {
    if globs == [] then Some([])
    else
      var n := |globs| - 1;
      var earlier, last := TranslatedAll(globs[..n]), Translated(globs[n]);
      if earlier.Some? && last.Some? then Some(earlier.value + [last.value]) else None
  }

  lemma {:induction false} BadStays(globs: seq<string>, n: nat)
    requires n <= |globs| && TranslatedAll(globs[..n]).None?
    ensures TranslatedAll(globs).None?
  {
    if n == |globs| {
      assert globs[..n] == globs;
    } else {
      var m := |globs| - 1;
      assert globs[..m][..n] == globs[..n];
      BadStays(globs[..m], n);
    }
  }

  /** One filter for all texts. */
  function Together(regexParts: seq<string>): string {
    if regexParts == [] || regexParts == [DEFAULT_FILTER] then DEFAULT_FILTER else "^(" + Joined(regexParts) + ")$"
  }

  method GlobsToRegex(globs: seq<string>) returns (regex: Option<string>)
    requires forall i, j :: 0 <= i < |globs| && 0 <= j < |globs[i]| ==> globs[i][j] as int < 128
    ensures regex == match TranslatedAll(globs) case None => None case Some(parts) => Some(Together(parts))
  {
    if |globs| == 0 {
      return Some(DEFAULT_FILTER);
    }
    var regexParts: seq<string> := [];
    var i := 0;
    while i < |globs|
      invariant 0 <= i <= |globs| && TranslatedAll(globs[..i]) == Some(regexParts)
    {
      assert globs[..i + 1][..i] == globs[..i];
      var regexPart := GlobToRegex(globs[i]);
      if regexPart.None? {
        BadStays(globs, i + 1);
        return None;
      }
      regexParts := regexParts + [regexPart.value];
      i := i + 1;
    }
    assert globs[..i] == globs;
    if |regexParts| == 1 && regexParts[0] == DEFAULT_FILTER {
      return Some(DEFAULT_FILTER);
    }
    regex := Some("^(" + Joined(regexParts) + ")$");
  }

  lemma {:induction false} PlainTranslatedAll(globs: seq<string>)
    requires forall i :: 0 <= i < |globs| ==> Plain(globs[i])
    ensures TranslatedAll(globs) == Some(Regexes(globs))
  {
    if globs != [] {
      var n := |globs| - 1;
      PlainTranslated(globs[n]);
      hide Translated, RegexOf, Plain;
      PlainTranslatedAll(globs[..n]);
      assert Regexes(globs) == Regexes(globs[..n]) + [RegexOf(globs[n])];
    }
  }

  /** For globs without classes that is the filter text below. */
  lemma PlainTogether(globs: seq<string>)
    requires forall i :: 0 <= i < |globs| ==> Plain(globs[i])
    ensures TranslatedAll(globs) == Some(Regexes(globs)) && Together(Regexes(globs)) == FilterText(globs)
  {
    PlainTranslatedAll(globs);
    hide RegexOf, Joined, TranslatedAll;
    if |globs| == 1 {
      assert Regexes(globs) == [RegexOf(globs[0])];
    }
  }

  function FilterText(globs: seq<string>): string {
    if globs == [] || (|globs| == 1 && RegexOf(globs[0]) == DEFAULT_FILTER) then DEFAULT_FILTER
    else "^(" + Joined(Regexes(globs)) + ")$"
  }

  function AllAtoms(globs: seq<string>): seq<seq<Atom>> {
    seq(|globs|, i requires 0 <= i < |globs| => AtomsOf(globs[i]))
  }

  lemma {:induction false} ParseJoined(globs: seq<string>)
    requires globs != []
    ensures Parse(Joined(Regexes(globs)), []) == Some(AllAtoms(globs))
  {
    if |globs| == 1 {
      ParseGlob(globs[0], [], []);
      assert RegexOf(globs[0]) + [] == RegexOf(globs[0]) && [] + AtomsOf(globs[0]) == AtomsOf(globs[0]);
      assert Joined(Regexes(globs)) == RegexOf(globs[0]) && AllAtoms(globs) == [AtomsOf(globs[0])];
    } else {
      var joined := Joined(Regexes(globs[1..]));
      JoinedFirst(globs);
      hide Parse, Joined, Regexes, AllAtoms, RegexOf, AtomsOf;
      ParseJoined(globs[1..]);
      ParseFirst(globs[0], joined, AllAtoms(globs[1..]));
    }
  }

  lemma JoinedFirst(globs: seq<string>)
    requires |globs| > 1
    ensures Joined(Regexes(globs)) == RegexOf(globs[0]) + ("|" + Joined(Regexes(globs[1..])))
    ensures AllAtoms(globs) == [AtomsOf(globs[0])] + AllAtoms(globs[1..])
  {
    hide RegexOf, AtomsOf;
    assert Regexes(globs)[1..] == Regexes(globs[1..]);
  }

  lemma ParseFirst(glob: string, joined: string, later: seq<seq<Atom>>)
    requires Parse(joined, []) == Some(later)
    ensures Parse(RegexOf(glob) + ("|" + joined), []) == Some([AtomsOf(glob)] + later)
  {
    ParseGlob(glob, "|" + joined, []);
    assert [] + AtomsOf(glob) == AtomsOf(glob) && ("|" + joined)[1..] == joined;
  }

  /** A glob's atoms match what the glob matches. */
  lemma {:induction false} AtomsMean(glob: string, name: string)
    ensures AtomsMatch(AtomsOf(glob), name) <==> GlobMatches(glob, name)
    decreases |glob|, |name|
  {
    if glob != [] {
      assert AtomsOf(glob)[1..] == AtomsOf(glob[1..]);
      if glob[0] == '*' {
        AtomsMean(glob[1..], name);
        if name != [] {
          AtomsMean(glob, name[1..]);
        }
      } else if name != [] {
        AtomsMean(glob[1..], name[1..]);
      }
    }
  }

  lemma {:induction false} StarMatches(name: string)
    ensures GlobMatches("*", name)
  {
    if name != [] {
      StarMatches(name[1..]);
    } else {
      assert "*"[1..] == [];
    }
  }

  /** Only the lone star is written as the default text. */
  lemma LoneStar(glob: string)
    requires Plain(glob) && RegexOf(glob) == DEFAULT_FILTER
    ensures glob == "*"
  {
    assert glob != [] by {
      assert RegexOf([]) == [];
    }
    RegexFront(glob);
    RegexStart(glob[1..], []);
    hide RegexOf;
    PieceStart(glob[0], RegexOf(glob[1..]));
    assert RegexOf(glob[1..]) + [] == RegexOf(glob[1..]);
    hide PieceOf;
    LonePiece(glob);
  }

  lemma LonePiece(glob: string)
    requires glob != [] && glob[0] == '*' && RegexOf(glob[1..]) == []
    ensures glob == "*"
  {
    assert glob == [glob[0]] + glob[1..];
  }

  lemma PieceStart(c: char, later: string)
    requires PieceOf(c) + later == DEFAULT_FILTER
    ensures c == '*' || (c == '?' && later == "*")
    ensures c == '*' ==> later == []
  {
    assert (PieceOf(c) + later)[0] == PieceOf(c)[0];
    assert (PieceOf(c) + later)[|PieceOf(c)|..] == later;
  }

  predicate SomeGlobMatches(globs: seq<string>, name: string) {
    exists i :: 0 <= i < |globs| && GlobMatches(globs[i], name)
  }

  /** The compiled filter accepts a name exactly if there is no glob at all or one of them matches it. */
  lemma FilterMeans(globs: seq<string>, name: string)
    requires forall i :: 0 <= i < |globs| ==> Plain(globs[i])
    ensures TextMatches(FilterText(globs), name) <==> globs == [] || SomeGlobMatches(globs, name)
  {
    if globs != [] {
      if |globs| == 1 && RegexOf(globs[0]) == DEFAULT_FILTER {
        LoneStar(globs[0]);
        StarMatches(name);
        assert GlobMatches(globs[0], name);
      } else {
        var body := Joined(Regexes(globs));
        var text := "^(" + body + ")$";
        assert text[..2] == "^(" && text[|text| - 2..] == ")$" && text[2..|text| - 2] == body;
        ParseJoined(globs);
        forall i | 0 <= i < |globs|
          ensures AtomsMatch(AtomsOf(globs[i]), name) <==> GlobMatches(globs[i], name)
        {
          AtomsMean(globs[i], name);
        }
        AnchoredMatches(text, body, globs, name);
      }
    }
  }

  /** What is written for globs compiles. */
  lemma FilterCompiles(globs: seq<string>)
    requires forall i :: 0 <= i < |globs| ==> Plain(globs[i])
    ensures TextCompiles(FilterText(globs))
  {
    if FilterText(globs) != DEFAULT_FILTER {
      var body := Joined(Regexes(globs));
      var text := "^(" + body + ")$";
      assert text[..2] == "^(" && text[|text| - 2..] == ")$" && text[2..|text| - 2] == body;
      ParseJoined(globs);
    }
  }

  lemma AnchoredMatches(text: string, body: string, globs: seq<string>, name: string)
    requires text == "^(" + body + ")$" && text[2..|text| - 2] == body && Anchored(text) && text != DEFAULT_FILTER
    requires Parse(body, []) == Some(AllAtoms(globs))
    requires forall i :: 0 <= i < |globs| ==> (AtomsMatch(AtomsOf(globs[i]), name) <==> GlobMatches(globs[i], name))
    ensures TextMatches(text, name) <==> SomeGlobMatches(globs, name)
  {
    var alternatives := Parse(body, []).value;
    assert |alternatives| == |globs| && forall i :: 0 <= i < |globs| ==> alternatives[i] == AtomsOf(globs[i]);
    if i :| 0 <= i < |globs| && GlobMatches(globs[i], name) {
      assert AtomsMatch(alternatives[i], name);
    }
  }
}
