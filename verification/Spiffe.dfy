/** SPIFFE IDs as the browser code checks, prints and parses them (more loosely than the SPIFFE-ID standard). */
module Spiffe {
  import opened Wrappers
  import opened Text

  const PREFIX := "spiffe://"

  /** Either part may be undefined in data that was uploaded rather than fetched. */
  datatype SpiffeId = SpiffeId(trustDomain: Option<string>, path: Option<string>)

  /** Exactly one slash between the trust domain and the path, on either side. */
  predicate CheckSpiffeIdValidity(trustDomain: Option<string>, path: Option<string>) {
    if trustDomain.None? || path.None? then false
    else if |trustDomain.value| == 0 || |path.value| == 0 then false
    else if trustDomain.value[0] == '/' then false
    else if trustDomain.value[|trustDomain.value| - 1] == '/' && path.value[0] != '/' then true
    else trustDomain.value[|trustDomain.value| - 1] != '/' && path.value[0] == '/'
  }

  /** The text of an ID, "" for one that is not valid. */
  function Print(id: SpiffeId): string {
    if CheckSpiffeIdValidity(id.trustDomain, id.path) then PREFIX + id.trustDomain.value + id.path.value else ""
  }

  function Parse(sid: string): Option<(string, string)> {
    if PREFIX <= sid then
      var sub := sid[|PREFIX|..];
      match IndexOf(sub, '/')
      case None => None
      case Some(sp) => if sp > 0 && sp != |sub| - 1 then Some((sub[..sp], sub[sp..])) else None
    else None
  }

  function Of(trustDomain: string, path: string): SpiffeId {
    SpiffeId(Some(trustDomain), Some(path))
  }

  /** The pairs that parsing yields. */
  predicate Canonical(trustDomain: string, path: string) {
    trustDomain != "" && '/' !in trustDomain && |path| > 1 && path[0] == '/'
  }

  /** Parsing yields canonical pairs, which are valid and print to the text they came from. */
  lemma PrintAfterParse(sid: string)
    requires Parse(sid).Some?
    ensures var (td, path) := Parse(sid).value;
      && Canonical(td, path) && CheckSpiffeIdValidity(Some(td), Some(path))
      && Print(Of(td, path)) == sid
  {
  }

  lemma ParseOfText(td: string, path: string)
    requires Canonical(td, path)
    ensures Parse(PREFIX + td + path) == Some((td, path))
  {
    var s := PREFIX + td + path;
    var sub := s[|PREFIX|..];
    assert sub == td + path;
    assert sub[..|td|] == td && sub[|td|..] == path;
    IndexOfIs(sub, '/', |td|);
    assert PREFIX <= s;
  }

  /** Printing and parsing give a pair back exactly when it is canonical. */
  lemma ParseAfterPrint(td: string, path: string)
    ensures Parse(Print(Of(td, path))) == Some((td, path)) <==> Canonical(td, path)
  {
    if Parse(Print(Of(td, path))).Some? {
      PrintAfterParse(Print(Of(td, path)));
    }
    if Canonical(td, path) {
      assert td[|td| - 1] in td;
      ParseOfText(td, path);
    }
  }

  /** What an ID prints as: its parts after the scheme, if there is one slash between them and none in front. */
  lemma PrintExactly(td: string, path: string)
    ensures Print(Of(td, path)) ==
      if td != "" && path != "" && td[0] != '/' && (td[|td| - 1] == '/') != (path[0] == '/') then
        "spiffe://" + td + path
      else ""
  {
  }

  /** Text is accepted exactly when it is the prefix followed by a canonical pair. */
  lemma ParseAccepts(sid: string)
    ensures Parse(sid).Some? <==> exists td, path :: Canonical(td, path) && sid == "spiffe://" + td + path
    ensures Parse(sid).Some? ==>
      var (td, path) := Parse(sid).value; td != "" && '/' !in td && |path| > 1 && path[0] == '/'
    ensures forall td, path | td != "" && '/' !in td && |path| > 1 && path[0] == '/' :: Canonical(td, path)
  {
    if Parse(sid).Some? {
      PrintAfterParse(sid);
      var (td, path) := Parse(sid).value;
      assert Canonical(td, path) && sid == PREFIX + td + path;
    }
    if exists td, path :: Canonical(td, path) && sid == PREFIX + td + path {
      var td, path :| Canonical(td, path) && sid == PREFIX + td + path;
      ParseOfText(td, path);
    }
  }

  /** Different valid IDs print differently, as long as no trust domain holds a slash. */
  lemma PrintIsInjective(td: string, path: string, td': string, path': string)
    requires CheckSpiffeIdValidity(Some(td), Some(path)) && CheckSpiffeIdValidity(Some(td'), Some(path'))
    requires '/' !in td && '/' !in td'
    requires Print(Of(td, path)) == Print(Of(td', path'))
    ensures td == td' && path == path'
  {
    assert td[|td| - 1] in td && td'[|td'| - 1] in td';
    var sub := td + path;
    assert PREFIX + td + path == PREFIX + sub && PREFIX + td' + path' == PREFIX + (td' + path');
    assert (PREFIX + sub)[|PREFIX|..] == sub && (PREFIX + (td' + path'))[|PREFIX|..] == td' + path';
    assert sub == td' + path';
    assert sub[..|td|] == td && sub[..|td'|] == td' && sub[|td|..] == path && sub[|td'|..] == path';
    IndexOfIs(sub, '/', |td|);
    IndexOfIs(sub, '/', |td'|);
  }

  /** Another valid ID with the same text. */
  ghost predicate SameText(td: string, path: string, td': string, path': string) {
    && (td', path') != (td, path) && CheckSpiffeIdValidity(Some(td'), Some(path'))
    && Print(Of(td', path')) == Print(Of(td, path))
  }

  /** The first character that is no slash. */
  lemma {:induction false} FirstOther(s: string) returns (k: nat)
    requires exists c | c in s :: c != '/'
    ensures k < |s| && s[k] != '/' && forall i | 0 <= i < k :: s[i] == '/'
  {
    if s[0] != '/' {
      k := 0;
    } else {
      var c :| c in s && c != '/';
      assert c in s[1..];
      var j := FirstOther(s[1..]);
      k := j + 1;
    }
  }

  lemma SameTextHasOther(td: string, path: string, td': string, path': string)
    requires CheckSpiffeIdValidity(Some(td), Some(path)) && '/' !in td && SameText(td, path, td', path')
    ensures exists c | c in path :: c != '/'
  {
    var text, n, n' := td + path, |td|, |td'|;
    assert text == (PREFIX + td + path)[|PREFIX|..] == (PREFIX + td' + path')[|PREFIX|..] == td' + path';
    assert text[..n] == td && text[n..] == path && text[..n'] == td' && text[n'..] == path';
    if n' < n {
      assert false;
    } else if n < n' {
      assert td'[n' - 1] == path[n' - 1 - n] && path'[0] == path[n' - n];
      assert path[n' - 1 - n] in path && path[n' - n] in path;
    }
  }

  /** An ID with a slash-free trust domain shares its text with another valid one unless its path is all slashes. */
  lemma PrintWithSlashIsAmbiguous(td: string, path: string)
    requires CheckSpiffeIdValidity(Some(td), Some(path)) && '/' !in td
    ensures (exists td', path' :: SameText(td, path, td', path')) <==> exists c | c in path :: c != '/'
  {
    assert td[|td| - 1] in td;
    if c :| c in path && c != '/' {
      var k := FirstOther(path);
      assert td + path == (td + path[..k]) + path[k..];
      assert PREFIX + (td + path[..k]) + path[k..] == PREFIX + td + path;
      assert SameText(td, path, td + path[..k], path[k..]);
    }
    if td', path' :| SameText(td, path, td', path') {
      SameTextHasOther(td, path, td', path');
    }
  }

  /** For instance "a/" with "b" and "a" with "/b". */
  lemma SlashExample()
    ensures SameText("a", "/b", "a/", "b")
  {
  }
}
