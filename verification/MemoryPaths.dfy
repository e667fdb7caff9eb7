/**
 The normal form of memory paths (app/routers/generic_resources.py,
 _normalize_memory_path and its helpers).
 */
module MemoryPaths {
  import opened Options
  import opened Strings

  const MAX_MEMORY_PATH_BYTES: nat := 1024

  // What the code asks of the Unicode tables: white space, control and format
  // characters, canonical composition, length in UTF-8.
  datatype Unicode = Unicode(
    isSpace: char -> bool, isControl: char -> bool, isNfc: string -> bool, utf8Length: string -> nat)

  datatype PathInput = PathText(text: string) | PathList(items: seq<string>)

  // The parts of a path between its slashes; the first is empty for a path that starts with one.
  predicate ValidPathText(u: Unicode, path: string) {
    && path != "" && path[0] == '/'
    && u.utf8Length(path) <= MAX_MEMORY_PATH_BYTES
    && u.isNfc(path)
    && (forall part | part in Split(path, '/')[1..] ::
          && part != "" && part != "." && part != ".."
          && forall c | c in part :: !u.isControl(c))
  }

  function StripItems(u: Unicode, items: seq<string>): seq<string> {
    if items == [] then []
    else
      var item := Strip(items[0], u.isSpace);
      (if item == "" then [] else [item]) + StripItems(u, items[1..])
  }

  function RemoveSlash(text: string): string {
    if text != "" && text[0] == '/' then text[1..] else text
  }

  function NormalizeParts(u: Unicode, parts: seq<string>): Option<string> {
    if parts == [] || exists part | part in parts :: '/' in part then None
    else
      var path := "/" + Join(parts, '/');
      if ValidPathText(u, path) then Some(path) else None
  }

  function Normalize(u: Unicode, input: PathInput): Option<string> {
    match input
    case PathText(text) =>
      var stripped := Strip(text, u.isSpace);
      if !ValidPathText(u, stripped) then None
      else NormalizeParts(u, Split(RemoveSlash(stripped), '/'))
    case PathList(items) => NormalizeParts(u, StripItems(u, items))
  }

  predicate IsSlash(c: char) {
    c == '/'
  }

  function PathKey(path: string): string {
    Strip(path, IsSlash)
  }

  // ------------------------------------------------------------------- lemmas

  lemma SplitOfPath(rest: string)
    ensures Split("/" + rest, '/') == [""] + Split(rest, '/')
  {
    assert ("/" + rest)[1..] == rest;
  }

  predicate Contains(s: string, t: string) {
    exists i | 0 <= i <= |s| :: t <= s[i..]
  }

  // A string is a part of `rest` exactly when it stands between two slashes.
  lemma PartIff(rest: string, part: string)
    ensures part in Split(rest, '/') <==> '/' !in part && Contains("/" + rest + "/", "/" + part + "/")
  {
    hide Split, Contains;
    var s, parts := "/" + rest + "/", Split(rest, '/');
    SplitOfEnclosed(rest);
    SplitParts(rest, '/');
    if k :| 0 <= k < |parts| && parts[k] == part {
      PartStands(s, k + 1);
    }
    if '/' !in part && Contains(s, "/" + part + "/") {
      var k := StandingIsPart(s, part);
      assert parts[k - 1] == part;
    }
  }

  lemma PartStands(s: string, k: nat)
    requires 0 < k < |Split(s, '/')| - 1
    ensures Contains(s, "/" + Split(s, '/')[k] + "/")
  {
    hide Split, Join;
    var parts := Split(s, '/');
    var before, part, behind := Join(parts[..k], '/'), parts[k], Join(parts[k + 1..], '/');
    JoinAround(parts, k);
    JoinOfSplit(s, '/');
    assert s == before + ("/" + part + "/" + behind);
    assert s[|before|..] == "/" + part + "/" + behind;
    assert "/" + part + "/" <= s[|before|..];
  }

  lemma StandingIsPart(s: string, part: string) returns (k: nat)
    requires '/' !in part && Contains(s, "/" + part + "/")
    ensures 0 < k < |Split(s, '/')| - 1 && Split(s, '/')[k] == part
  {
    hide Split;
    var i :| 0 <= i <= |s| && "/" + part + "/" <= s[i..];
    var before, behind := s[..i], s[i..][|part| + 2..];
    assert s == before + s[i..] && s[i..] == "/" + part + "/" + behind;
    assert s == before + ['/'] + (part + ['/'] + behind);
    SplitOfConcat(before, part + ['/'] + behind, '/');
    SplitOfConcat(part, behind, '/');
    SplitOfPlain(part, '/');
    k := |Split(before, '/')|;
    assert Split(s, '/') == Split(before, '/') + ([part] + Split(behind, '/'));
  }

  lemma SplitOfEnclosed(rest: string)
    ensures Split("/" + rest + "/", '/') == [""] + Split(rest, '/') + [""]
  {
    assert "/" + rest + "/" == "/" + (rest + ['/'] + "");
    SplitOfPath(rest + ['/'] + "");
    SplitOfConcat(rest, "", '/');
  }

  lemma JoinAround(parts: seq<string>, k: nat)
    requires 0 < k < |parts| - 1
    ensures Join(parts, '/') == Join(parts[..k], '/') + "/" + parts[k] + "/" + Join(parts[k + 1..], '/')
  {
    hide Join;
    var front, behind := parts[..k], parts[k + 1..];
    assert parts == front + ([parts[k]] + behind);
    JoinOfConcat(front, [parts[k]] + behind, '/');
    JoinOfConcat([parts[k]], behind, '/');
    JoinStep([parts[k]], '/');
  }

  lemma {:induction false} CharactersOfParts(rest: string, c: char)
    requires c != '/'
    ensures c in rest <==> exists part | part in Split(rest, '/') :: c in part
  {
    if rest != "" {
      var parts, behind := Split(rest, '/'), Split(rest[1..], '/');
      CharactersOfParts(rest[1..], c);
      assert c in rest <==> rest[0] == c || c in rest[1..];
      if rest[0] == '/' {
        assert forall part :: part in parts <==> part == "" || part in behind;
      } else {
        var first := [rest[0]] + behind[0];
        assert c in first <==> rest[0] == c || c in behind[0];
        assert forall part :: part in parts <==> part == first || part in behind[1..];
        assert forall part :: part in behind <==> part == behind[0] || part in behind[1..];
      }
    }
  }

  // A path is valid exactly when it starts with a slash, is short and composed,
  // has no empty part and none that is one dot or two, and no control character.
  lemma ValidPathIff(u: Unicode, path: string)
    ensures ValidPathText(u, path) <==>
      && path != "" && path[0] == '/' && u.utf8Length(path) <= 1024 && u.isNfc(path)
      && !Contains(path + "/", "//") && !Contains(path + "/", "/./") && !Contains(path + "/", "/../")
      && forall c | c in path && c != '/' :: !u.isControl(c)
  {
    hide Contains, Split;
    if path != "" && path[0] == '/' {
      var rest := path[1..];
      assert path == "/" + rest && path + "/" == "/" + rest + "/";
      SplitOfPath(rest);
      var parts := Split(path, '/')[1..];
      assert parts == Split(rest, '/');
      PartIff(rest, "");
      PartIff(rest, ".");
      PartIff(rest, "..");
      assert "/" + "" + "/" == "//" && "/" + "." + "/" == "/./" && "/" + ".." + "/" == "/../";
      forall c | c != '/'
        ensures c in path <==> exists part | part in parts :: c in part
      {
        CharactersOfParts(rest, c);
      }
      SplitParts(rest, '/');
    }
  }

  // A text that is stripped and valid is its own normal form.
  lemma NormalizeText(u: Unicode, text: string)
    ensures var stripped := Strip(text, u.isSpace);
      Normalize(u, PathText(text)) == if ValidPathText(u, stripped) then Some(stripped) else None
  {
    var stripped := Strip(text, u.isSpace);
    if ValidPathText(u, stripped) {
      var rest := stripped[1..];
      assert stripped == "/" + rest;
      SplitParts(rest, '/');
      JoinOfSplit(rest, '/');
    }
  }

  lemma {:induction false} StripItemsAreStripped(u: Unicode, items: seq<string>)
    ensures forall item | item in StripItems(u, items) :: item != "" && IsStripped(item, u.isSpace)
  {
    if items != [] {
      StripIsStripped(items[0], u.isSpace);
      StripItemsAreStripped(u, items[1..]);
    }
  }

  lemma {:induction false} StripItemsOfStripped(u: Unicode, items: seq<string>)
    requires forall item | item in items :: item != "" && IsStripped(item, u.isSpace)
    ensures StripItems(u, items) == items
  {
    if items != [] {
      assert items[0] in items;
      StripOfStripped(items[0], u.isSpace);
      assert forall item | item in items[1..] :: item in items;
      StripItemsOfStripped(u, items[1..]);
    }
  }

  // The path of a list: its items, stripped and blank ones left out, are its parts.
  lemma NormalizeList(u: Unicode, items: seq<string>, path: string)
    ensures Normalize(u, PathList(items)) == Some(path) <==>
      && ValidPathText(u, path) && Split(path, '/') == [""] + StripItems(u, items)
    ensures (forall item | item in items :: item != "" && IsStripped(item, u.isSpace)) ==> StripItems(u, items) == items
  {
    hide Split, Join, Strip, IsStripped;
    var parts := StripItems(u, items);
    if Normalize(u, PathList(items)) == Some(path) {
      SplitOfPath(Join(parts, '/'));
      SplitOfJoin(parts, '/');
    }
    if ValidPathText(u, path) && Split(path, '/') == [""] + parts {
      var rest := path[1..];
      assert path == "/" + rest;
      SplitOfPath(rest);
      assert ([""] + parts)[1..] == parts && ([""] + Split(rest, '/'))[1..] == Split(rest, '/');
      SplitParts(rest, '/');
      JoinOfSplit(rest, '/');
    }
    if forall item | item in items :: item != "" && IsStripped(item, u.isSpace) {
      StripItemsOfStripped(u, items);
    }
  }

  // Normalizing a normal form changes nothing, whether it came from a text or a list.
  lemma NormalizeIsIdempotent(u: Unicode, input: PathInput)
    requires !u.isSpace('/')
    requires Normalize(u, input).Some?
    ensures Normalize(u, PathText(Normalize(u, input).value)) == Normalize(u, input)
  {
    var path := Normalize(u, input).value;
    NormalizeText(u, path);
    match input
    case PathText(text) =>
      NormalizeText(u, text);
      StripIsStripped(text, u.isSpace);
      StripOfStripped(path, u.isSpace);
    case PathList(items) =>
      var parts := StripItems(u, items);
      StripItemsAreStripped(u, items);
      assert parts[|parts| - 1] in parts;
      JoinEnd(parts, '/');
      StripOfStripped(path, u.isSpace);
  }

  // The parts of a normal path, and what its key is.
  lemma KeyOfNormalPath(u: Unicode, path: string)
    requires ValidPathText(u, path)
    ensures path == "/" + PathKey(path)
    ensures PathKey(path) != ""
    ensures forall part | part in Split(PathKey(path), '/') :: part != ""
  {
    var rest := path[1..];
    assert path == "/" + rest;
    SplitOfPath(rest);
    var parts := Split(rest, '/');
    assert Split(path, '/')[1..] == parts;
    assert parts[0] in parts && parts[|parts| - 1] in parts;
    SplitParts(rest, '/');
    JoinOfSplit(rest, '/');
    JoinEnd(parts, '/');
    assert rest[0] == parts[0][0];
    assert rest[|rest| - 1] == parts[|parts| - 1][|parts[|parts| - 1]| - 1];
    assert StripLeft(path, IsSlash) == StripLeft(rest, IsSlash) == rest;
    assert StripRight(rest, IsSlash) == rest;
  }

  // Every normal form is a slash and its key; so equal keys mean equal paths.
  lemma PathKeyDeterminesPath(u: Unicode, input: PathInput)
    requires Normalize(u, input).Some?
    ensures "/" + PathKey(Normalize(u, input).value) == Normalize(u, input).value
    ensures ValidPathText(u, Normalize(u, input).value)
  {
    if input.PathText? {
      NormalizeText(u, input.text);
    }
    KeyOfNormalPath(u, Normalize(u, input).value);
  }
}
