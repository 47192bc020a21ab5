/** Splitting, joining and trimming text, as Go's strings package and JavaScript's String do it. */
module Text {
  import opened Wrappers
  import opened Sequences

  /** Position of the first c in s. */
  function IndexOf(s: string, c: char): (r: Option<nat>)
    ensures r.Some? ==> r.value < |s| && s[r.value] == c && c !in s[..r.value]
    ensures r.None? ==> c !in s
  {
    if s == [] then None
    else if s[0] == c then Some(0)
    else match IndexOf(s[1..], c)
      case None => None
      case Some(i) => assert s[..i + 1] == [s[0]] + s[1..][..i]; Some(i + 1)
  }

  lemma IndexOfIs(s: string, c: char, i: nat)
    requires i < |s| && s[i] == c && c !in s[..i]
    ensures IndexOf(s, c) == Some(i)
  {
  }

  /** The maximal sep-free pieces of s; the empty text has one empty piece. */
  function Split(s: string, sep: char): (parts: seq<string>)
    ensures parts != []
    decreases |s|
  {
    match IndexOf(s, sep)
    case None => [s]
    case Some(i) => [s[..i]] + Split(s[i + 1..], sep)
  }

  function Join(parts: seq<string>, sep: char): string {
    if parts == [] then ""
    else if |parts| == 1 then parts[0]
    else parts[0] + [sep] + Join(parts[1..], sep)
  }

  lemma JoinCons(part: string, rest: seq<string>, sep: char)
    requires rest != []
    ensures Join([part] + rest, sep) == part + [sep] + Join(rest, sep)
  {
  }

  ghost predicate Free(parts: seq<string>, c: char) {
    forall p | p in parts :: c !in p
  }

  lemma FreeCons(part: string, rest: seq<string>, c: char)
    requires Free([part] + rest, c)
    ensures c !in part && Free(rest, c)
  {
  }

  lemma {:induction false} PiecesAreFree(s: string, sep: char)
    ensures Free(Split(s, sep), sep)
    decreases |s|
  {
    match IndexOf(s, sep)
    case None =>
    case Some(i) => PiecesAreFree(s[i + 1..], sep);
  }

  /** Joining the pieces of a text gives the text back. */
  lemma {:induction false} JoinAfterSplit(s: string, sep: char)
    ensures Join(Split(s, sep), sep) == s
    decreases |s|
  {
    match IndexOf(s, sep)
    case None =>
    case Some(i) =>
      var rest := Split(s[i + 1..], sep);
      JoinAfterSplit(s[i + 1..], sep);
      assert Split(s, sep) == [s[..i]] + rest;
      hide Split;
      JoinCons(s[..i], rest, sep);
      assert s == s[..i] + [sep] + s[i + 1..];
  }

  lemma {:induction false} SplitAtFree(x: string, sep: char, rest: string)
    requires sep !in x
    ensures Split(x + [sep] + rest, sep) == [x] + Split(rest, sep)
  {
    var s := x + [sep] + rest;
    assert s[..|x|] == x && s[|x| + 1..] == rest;
    IndexOfIs(s, sep, |x|);
  }

  lemma SplitInTwoFree(x: string, sep: char, y: string)
    requires sep !in x && sep !in y
    ensures Split(x + [sep] + y, sep) == [x, y]
  {
    SplitAtFree(x, sep, y);
  }

  lemma {:induction false} SplitAfterJoinOfFree(parts: seq<string>, sep: char)
    requires parts != [] && Free(parts, sep)
    ensures Split(Join(parts, sep), sep) == parts
  {
    if |parts| == 1 {
      assert parts[0] in parts;
    } else {
      SplitAfterJoinOfFree(parts[1..], sep);
      SplitAtFree(parts[0], sep, Join(parts[1..], sep));
    }
  }

  /** Splitting undoes joining exactly when no piece holds the separator. */
  lemma {:induction false} SplitInvertsJoin(parts: seq<string>, sep: char)
    requires parts != []
    ensures Split(Join(parts, sep), sep) == parts <==> Free(parts, sep)
  {
    PiecesAreFree(Join(parts, sep), sep);
    if Free(parts, sep) {
      SplitAfterJoinOfFree(parts, sep);
    }
  }

  /** White space and line terminators, as String.prototype.trim removes them. */
  predicate IsBlank(c: char) {
    || c in {' ', '\t', '\n', '\r', '\U{000B}', '\U{000C}', '\U{00A0}', '\U{1680}', '\U{2028}', '\U{2029}'}
    || c in {'\U{202F}', '\U{205F}', '\U{3000}', '\U{FEFF}'}
    || '\U{2000}' <= c <= '\U{200A}'
  }

  function TrimStart(s: string): (r: string)
    ensures forall c | c in r :: c in s
    ensures forall c | c in s && !IsBlank(c) :: c in r
    ensures r == "" || !IsBlank(r[0])
  {
    if s != "" && IsBlank(s[0]) then TrimStart(s[1..]) else s
  }

  function TrimEnd(s: string): (r: string)
    ensures forall c | c in r :: c in s
    ensures forall c | c in s && !IsBlank(c) :: c in r
    ensures r <= s
    ensures r == "" || !IsBlank(r[|r| - 1])
  {
    if s != "" && IsBlank(s[|s| - 1]) then
      assert s == s[..|s| - 1] + [s[|s| - 1]];
      TrimEnd(s[..|s| - 1])
    else s
  }

  /** Trimming drops blanks only, and leaves a text alone exactly when its ends are not blank. */
  function Trim(s: string): (r: string)
    ensures forall c | c in r :: c in s
    ensures forall c | c in s && !IsBlank(c) :: c in r
    ensures r == s <==> s == "" || (!IsBlank(s[0]) && !IsBlank(s[|s| - 1]))
  {
    var m := TrimStart(s);
    var r := TrimEnd(m);
    assert r != "" ==> r[0] == m[0];
    r
  }

  lemma {:induction false} TrimStartSkips(before: string, x: string)
    requires forall c | c in before :: IsBlank(c)
    ensures TrimStart(before + x) == TrimStart(x)
  {
    if before == "" {
      assert before + x == x;
    } else {
      assert (before + x)[1..] == before[1..] + x;
      TrimStartSkips(before[1..], x);
    }
  }

  lemma {:induction false} TrimEndSkips(x: string, after: string)
    requires forall c | c in after :: IsBlank(c)
    ensures TrimEnd(x + after) == TrimEnd(x)
    decreases |after|
  {
    if after == "" {
      assert x + after == x;
    } else {
      var n := |after| - 1;
      assert (x + after)[..|x + after| - 1] == x + after[..n];
      TrimEndSkips(x, after[..n]);
    }
  }

  /** What the space bar and the tab and return keys leave around a text is trimmed. */
  lemma TrimAround(before: string, x: string, after: string)
    requires x != "" && Trim(x) == x
    requires forall c | c in before + after :: c in {' ', '\t', '\n', '\r'}
    ensures Trim(before + x + after) == x
  {
    assert forall c | c in before :: c in before + after;
    assert forall c | c in after :: c in before + after;
    assert before + x + after == before + (x + after);
    TrimStartSkips(before, x + after);
    TrimEndSkips(x, after);
  }

  /** Nothing is left of a text of such characters alone. */
  lemma TrimNothing(blank: string)
    requires forall c | c in blank :: c in {' ', '\t', '\n', '\r'}
    ensures Trim(blank) == ""
  {
    assert blank + "" == blank;
    TrimStartSkips(blank, "");
  }

  /** A text that begins and ends with printable ASCII characters other than the space is left as it is. */
  lemma TrimKeeps(x: string)
    requires x != "" && '!' <= x[0] <= '~' && '!' <= x[|x| - 1] <= '~'
    ensures Trim(x) == x
  {
  }

  /** Names that need no trimming and hold no comma. */
  predicate PlainNames(names: seq<string>) {
    forall n | n in names :: ',' !in n && Trim(n) == n
  }

  /** The trimmed comma-separated parts of a text field; an empty field has none. */
  function Parts(text: string): seq<string> {
    if |text| == 0 then [] else Map(Trim, Split(text, ','))
  }

  function Indented(name: string): string {
    " " + name
  }

  /** All but the first with a space in front. */
  function IndentedTail(names: seq<string>): seq<string> {
    if names == [] then [] else [names[0]] + Map(Indented, names[1..])
  }

  /** Names as they are typed, with a comma and a space between them. */
  function Spaced(names: seq<string>): string {
    Join(IndentedTail(names), ',')
  }

  lemma ReadIndented(name: string)
    requires name != "" && Trim(name) == name && ',' !in name
    ensures Trim(Indented(name)) == name && ',' !in Indented(name)
  {
    TrimAround(" ", name, "");
    assert " " + name + "" == " " + name;
  }

  lemma JoinEmpty(parts: seq<string>, sep: char)
    ensures Join(parts, sep) == "" <==> parts == [] || parts == [""]
  {
  }

  lemma ReadTail(names: seq<string>)
    requires PlainNames(names) && forall n | n in names :: n != ""
    ensures Map(Trim, IndentedTail(names)) == names
    ensures Free(IndentedTail(names), ',') && IndentedTail(names) != [""]
  {
    hide Trim;
    hide Indented;
    var pieces := IndentedTail(names);
    forall i | 0 <= i < |names| ensures Trim(pieces[i]) == names[i] && ',' !in pieces[i] {
      assert names[i] in names;
      ReadIndented(names[i]);
    }
    assert names != [] ==> names[0] in names;
  }

  /** Such names, typed with a comma and a space between them, are read as exactly those names. */
  lemma PartsOfSpaced(names: seq<string>)
    requires PlainNames(names) && forall n | n in names :: n != ""
    ensures Parts(Spaced(names)) == names
  {
    ReadTail(names);
    JoinEmpty(IndentedTail(names), ',');
    if names != [] {
      SplitInvertsJoin(IndentedTail(names), ',');
    }
    hide Trim;
    hide Split;
    hide Join;
    hide Free;
    hide PlainNames;
  }

  /** The list is what the field says, when it says names typed like that. */
  ghost predicate ReadsSpaced(text: string, list: seq<string>) {
    forall names | PlainNames(names) && (forall n | n in names :: n != "") && Spaced(names) == text :: list == names
  }

  lemma PartsReadSpaced(text: string)
    ensures ReadsSpaced(text, Parts(text))
  {
    forall names | PlainNames(names) && (forall n | n in names :: n != "") && Spaced(names) == text
      ensures Parts(text) == names
    {
      PartsOfSpaced(names);
    }
  }

  /** A list shown in a text field is read back exactly when it shows at all and its names are trimmed
      and comma-free. */
  lemma PartsOfJoin(names: seq<string>)
    ensures Parts(Join(names, ',')) == names <==>
            names != [""] && forall n | n in names :: ',' !in n && Trim(n) == n
  {
    var text := Join(names, ',');
    JoinEmpty(names, ',');
    if text != "" {
      SplitInvertsJoin(names, ',');
      PiecesAreFree(text, ',');
      var pieces := Split(text, ',');
      if Parts(text) == names {
        forall n | n in names ensures ',' !in n {
          var i :| 0 <= i < |names| && names[i] == n;
          assert n == Trim(pieces[i]) && pieces[i] in pieces;
        }
        forall n | n in names ensures Trim(n) == n {
          var i :| 0 <= i < |names| && names[i] == n;
          assert pieces[i] == n;
        }
      }
      if forall n | n in names :: ',' !in n && Trim(n) == n {
        assert pieces == names;
        assert forall i | 0 <= i < |names| :: names[i] in names && Trim(pieces[i]) == names[i];
      }
    }
  }
}
