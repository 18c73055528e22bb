/** Pointing pkg's trust configuration at the relay (src/packages.ts, relayTrustedRepos):
    a rewrite that changes one table's url and nothing else. */
module TrustedRepos {
  import opened Basics
  import opened Texts

  const NEWLINE: Unit := 10
  const SLASH: Unit := 47
  const QUOTE: Unit := 34
  const BACKSLASH: Unit := 92
  const HASH: Unit := 35
  const EQUALS: Unit := 61
  const MINUS: Unit := 45

  function Header(): Text {
    Literal("[[repo]]")
  }

  function UrlKey(): Text {
    Literal("url")
  }

  function RelayUrl(): Text {
    Literal("http://127.0.0.1:7417/")
  }

  function Owner(): Text {
    Literal("YurtOS")
  }

  function Repository(): Text {
    Literal("yurt-packages")
  }

  // ---- lines ----

  predicate KeyUnit(u: Unit) {
    65 <= u <= 90 || 97 <= u <= 122 || 48 <= u <= 57 || u == 95 || u == 45
  }

  function KeyLength(t: Text): (k: nat)
    ensures k <= |t|
  {
    if t != [] && KeyUnit(t[0]) then 1 + KeyLength(t[1..]) else 0
  }

  function DigitsLength(t: Text): (k: nat)
    ensures k <= |t|
  {
    if t != [] && Digit(t[0]) then 1 + DigitsLength(t[1..]) else 0
  }

  /** The length of a basic string's content: up to a quote or a backslash. */
  function ContentLength(t: Text): (k: nat)
    ensures k <= |t|
  {
    if t != [] && t[0] != QUOTE && t[0] != BACKSLASH then 1 + ContentLength(t[1..]) else 0
  }

  /** How long the value `t` begins with is: a string without escapes, or an integer. */
  function ValueLength(t: Text): Option<nat> {
    if t == [] then None
    else if t[0] == QUOTE then
      var k := ContentLength(t[1..]);
      if k + 1 < |t| && t[k + 1] == QUOTE then Some(k + 2) else None
    else
      var sign := if t[0] == MINUS then 1 else 0;
      var k := DigitsLength(t[sign..]);
      if k > 0 then Some(sign + k) else None
  }

  predicate Terminator(u: Unit) {
    u == 10 || u == 13 || u == 0x2028 || u == 0x2029
  }

  /** What may stand after a value: nothing, or a comment. */
  predicate Remark(t: Text) {
    t == [] || (t[0] == HASH && forall i :: 0 <= i < |t| ==> !Terminator(t[i]))
  }

  /** `JSON.parse` of a string without escapes refuses control characters. */
  predicate Plain(text: Text) {
    text != [] && text[0] == QUOTE ==> forall i :: 0 <= i < |text| ==> text[i] >= 0x20
  }

  function ValueOf(text: Text): Text
    requires |text| >= 2 || (text != [] && text[0] != QUOTE)
  {
    if text[0] == QUOTE then text[1..|text| - 1] else text
  }

  datatype Line = Blank | Table | Setting(key: Text, text: Text) | Unreadable

  function Classify(line: Text): Line {
    if line == [] || line[0] == HASH then Blank
    else if line == Header() then Table
    else
      var k := KeyLength(line);
      var afterKey := SkipSpace(line[k..]);
      if k == 0 || afterKey == [] || afterKey[0] != EQUALS then Unreadable
      else
        var value := SkipSpace(afterKey[1..]);
        var v := ValueLength(value);
        if v.None? || v.value > |value| || !Remark(SkipSpace(value[v.value..])) || !Plain(value[..v.value]) then Unreadable
        else Setting(line[..k], value[..v.value])
  }

  function LineOf(raw: Text): Line {
    Classify(Trim(raw))
  }

  /** `/^url\s*=/`. */
  predicate SetsUrl(line: Text) {
    StartsWith(line, UrlKey()) && SkipSpace(line[|UrlKey()|..]) != [] && SkipSpace(line[|UrlKey()|..])[0] == EQUALS
  }

  // ---- tables ----

  /** A `[[repo]]` table: its settings as written, in order, and the value of each key. */
  datatype Repo = Repo(lines: seq<(Text, Text)>, values: map<Text, Text>)

  function Add(repo: Repo, key: Text, text: Text): Repo {
    Repo(repo.lines + [(key, text)],
         repo.values[key := if |text| >= 2 || (text != [] && text[0] != QUOTE) then ValueOf(text) else []])
  }

  /** The setting goes to the last table. */
  function Amend(repos: seq<Repo>, key: Text, text: Text): (after: seq<Repo>)
    requires repos != []
    ensures |after| == |repos|
  {
    repos[|repos| - 1 := Add(repos[|repos| - 1], key, text)]
  }

  /** The tables after one more line, or nothing where it cannot be read. */
  function Step(raw: Text, repos: seq<Repo>): Option<seq<Repo>> {
    match LineOf(raw)
    case Blank => Some(repos)
    case Table => Some(repos + [Repo([], map[])])
    case Unreadable => None
    case Setting(key, text) =>
      if repos == [] then None else Some(Amend(repos, key, text))
  }

  function Tables(raws: seq<Text>, repos: seq<Repo>): Option<seq<Repo>> {
    if raws == [] then Some(repos)
    else
      match Step(raws[0], repos)
      case None => None
      case Some(after) => Tables(raws[1..], after)
  }

  function RepoTablesOf(toml: Text): Option<seq<Repo>> {
    Tables(Split(toml, NEWLINE), [])
  }

  function UrlOf(repo: Repo): Text {
    if UrlKey() in repo.values then repo.values[UrlKey()] else []
  }

  /** The table for the package repository: by two segments of its url, or at the relay. */
  predicate IsPackageRepo(repo: Repo) {
    var segments := Split(UrlOf(repo), SLASH);
    UrlOf(repo) == RelayUrl() ||
    exists i :: 0 <= i < |segments| - 1 && segments[i] == Owner() && segments[i + 1] == Repository()
  }

  /** The index of the first package table, or how many there are. */
  function FirstPackageRepo(repos: seq<Repo>): (i: nat)
    ensures i <= |repos|
  {
    if repos == [] || IsPackageRepo(repos[0]) then 0 else 1 + FirstPackageRepo(repos[1..])
  }

  lemma {:induction false} FirstOfAll(repos: seq<Repo>)
    ensures var i := FirstPackageRepo(repos);
            && (i < |repos| ==> IsPackageRepo(repos[i]))
            && forall j :: 0 <= j < i ==> !IsPackageRepo(repos[j])
  {
    hide IsPackageRepo;
    if repos != [] && !IsPackageRepo(repos[0]) {
      FirstOfAll(repos[1..]);
    }
  }

  function RelayText(): Text {
    [QUOTE] + RelayUrl() + [QUOTE]
  }

  // ---- what a line says ----

  predicate Spaces(t: Text) {
    forall i :: 0 <= i < |t| ==> Space(t[i])
  }

  /** No white space at either end. */
  predicate Bare(t: Text) {
    t != [] ==> !Space(t[0]) && !Space(t[|t| - 1])
  }

  lemma {:induction false} SkipSpaces(a: Text, t: Text)
    requires Spaces(a) && (t == [] || !Space(t[0]))
    ensures SkipSpace(a + t) == t
  {
    if a == [] {
      assert a + t == t;
    } else {
      assert (a + t)[1..] == a[1..] + t;
      SkipSpaces(a[1..], t);
    }
  }

  lemma {:induction false} SkippedSpaces(t: Text) returns (a: Text)
    ensures t == a + SkipSpace(t) && Spaces(a) && (SkipSpace(t) == [] || !Space(SkipSpace(t)[0]))
  {
    if t != [] && Space(t[0]) {
      var rest := SkippedSpaces(t[1..]);
      a := [t[0]] + rest;
      assert t == [t[0]] + t[1..];
    } else {
      a := [];
    }
  }

  lemma {:induction false} TrimsEnd(t: Text, b: Text)
    requires Spaces(b) && (t == [] || !Space(t[|t| - 1]))
    ensures TrimEnd(t + b) == t
    decreases |b|
  {
    if b == [] {
      assert t + b == t;
    } else {
      assert (t + b)[..|t + b| - 1] == t + b[..|b| - 1];
      TrimsEnd(t, b[..|b| - 1]);
    }
  }

  lemma {:induction false} TrimmedEnd(t: Text) returns (b: Text)
    ensures t == TrimEnd(t) + b && Spaces(b) && (TrimEnd(t) == [] || !Space(TrimEnd(t)[|TrimEnd(t)| - 1]))
    decreases |t|
  {
    if t != [] && Space(t[|t| - 1]) {
      var rest := TrimmedEnd(t[..|t| - 1]);
      b := rest + [t[|t| - 1]];
      assert t == t[..|t| - 1] + [t[|t| - 1]];
    } else {
      b := [];
    }
  }

  /** Trimming a text takes the white space at its ends. */
  lemma TrimIs(a: Text, t: Text, b: Text)
    requires Spaces(a) && Spaces(b) && Bare(t) && t != []
    ensures Trim(a + t + b) == t
  {
    TrimsEnd(a + t, b);
    SkipSpaces(a, t);
  }

  lemma TrimTakes(t: Text) returns (a: Text, b: Text)
    ensures t == a + Trim(t) + b && Spaces(a) && Spaces(b) && Bare(Trim(t))
  {
    b := TrimmedEnd(t);
    a := SkippedSpaces(TrimEnd(t));
    var mid := Trim(t);
    assert TrimEnd(t) == a + mid;
    if mid != [] {
      assert mid[|mid| - 1] == TrimEnd(t)[|TrimEnd(t)| - 1];
    }
  }

  predicate IsKey(t: Text) {
    t != [] && forall i :: 0 <= i < |t| ==> KeyUnit(t[i])
  }

  /** A basic string without escapes. */
  predicate IsString(t: Text) {
    |t| >= 2 && t[0] == QUOTE && t[|t| - 1] == QUOTE &&
    forall i :: 0 < i < |t| - 1 ==> t[i] != QUOTE && t[i] != BACKSLASH && t[i] >= 0x20
  }

  predicate IsInteger(t: Text) {
    AllDigits(t) || (t != [] && t[0] == MINUS && AllDigits(t[1..]))
  }

  /** The setting of a key: it, an equals sign and a value, with white space between or not,
      and after it maybe a comment. */
  ghost predicate Sets(line: Text, key: Text, text: Text) {
    exists a, b, c, remark :: SetsWith(line, key, text, a, b, c, remark)
  }

  predicate SetsWith(line: Text, key: Text, text: Text, a: Text, b: Text, c: Text, remark: Text) {
    && line == key + a + [EQUALS] + b + text + c + remark
    && IsKey(key) && (IsString(text) || IsInteger(text)) && Spaces(a) && Spaces(b) && Spaces(c)
    && Remark(remark) && (remark == [] ==> c == [])
  }

  lemma {:induction false} KeyAhead(key: Text, rest: Text)
    requires (forall i :: 0 <= i < |key| ==> KeyUnit(key[i])) && (rest == [] || !KeyUnit(rest[0]))
    ensures KeyLength(key + rest) == |key|
  {
    if key == [] {
      assert key + rest == rest;
    } else {
      assert (key + rest)[1..] == key[1..] + rest;
      KeyAhead(key[1..], rest);
    }
  }

  lemma {:induction false} KeyRead(t: Text)
    ensures forall i :: 0 <= i < KeyLength(t) ==> KeyUnit(t[i])
    ensures KeyLength(t) < |t| ==> !KeyUnit(t[KeyLength(t)])
  {
    if t != [] && KeyUnit(t[0]) {
      KeyRead(t[1..]);
    }
  }

  lemma {:induction false} DigitsAhead(ds: Text, rest: Text)
    requires (forall i :: 0 <= i < |ds| ==> Digit(ds[i])) && (rest == [] || !Digit(rest[0]))
    ensures DigitsLength(ds + rest) == |ds|
  {
    if ds == [] {
      assert ds + rest == rest;
    } else {
      assert (ds + rest)[1..] == ds[1..] + rest;
      DigitsAhead(ds[1..], rest);
    }
  }

  lemma {:induction false} DigitsRead(t: Text)
    ensures forall i :: 0 <= i < DigitsLength(t) ==> Digit(t[i])
  {
    if t != [] && Digit(t[0]) {
      DigitsRead(t[1..]);
    }
  }

  lemma {:induction false} ContentAhead(content: Text, rest: Text)
    requires forall i :: 0 <= i < |content| ==> content[i] != QUOTE && content[i] != BACKSLASH
    ensures ContentLength(content + [QUOTE] + rest) == |content|
  {
    if content == [] {
      assert (content + [QUOTE] + rest)[0] == QUOTE;
    } else {
      assert (content + [QUOTE] + rest)[1..] == content[1..] + [QUOTE] + rest;
      ContentAhead(content[1..], rest);
    }
  }

  lemma {:induction false} ContentRead(t: Text)
    ensures forall i :: 0 <= i < ContentLength(t) ==> t[i] != QUOTE && t[i] != BACKSLASH
  {
    if t != [] && t[0] != QUOTE && t[0] != BACKSLASH {
      ContentRead(t[1..]);
    }
  }

  lemma ValueAhead(text: Text, rest: Text)
    requires (IsString(text) || IsInteger(text)) && (rest == [] || !Digit(rest[0]))
    ensures ValueLength(text + rest) == Some(|text|)
  {
    var t := text + rest;
    if text[0] == QUOTE {
      var content := text[1..|text| - 1];
      assert t[1..] == content + [QUOTE] + rest;
      ContentAhead(content, rest);
    } else if text[0] == MINUS {
      assert t[1..] == text[1..] + rest;
      DigitsAhead(text[1..], rest);
    } else {
      assert t[0..] == text + rest;
      DigitsAhead(text, rest);
    }
  }

  lemma ValueRead(t: Text)
    requires ValueLength(t).Some? && Plain(t[..Min(ValueLength(t).value, |t|)])
    ensures ValueLength(t).value <= |t|
    ensures IsString(t[..ValueLength(t).value]) || IsInteger(t[..ValueLength(t).value])
  {
    if t[0] == QUOTE {
      ContentRead(t[1..]);
      var k := ContentLength(t[1..]);
      assert forall i :: 0 < i < k + 1 ==> t[i] == t[1..][i - 1];
    } else {
      var sign := if t[0] == MINUS then 1 else 0;
      DigitsRead(t[sign..]);
      var text := t[..ValueLength(t).value];
      assert text[sign..] == t[sign..][..DigitsLength(t[sign..])];
      if sign == 0 {
        assert text[0..] == text;
      }
    }
  }

  lemma CutAfter(a: Text, b: Text)
    ensures (a + b)[..|a|] == a && (a + b)[|a|..] == b
  {
  }

  lemma ClassifyIs(line: Text, key: Text, afterKey: Text, value: Text, text: Text)
    requires line != [] && line[0] != HASH && line != Header() && key != []
    requires KeyLength(line) == |key| && line[..|key|] == key
    requires SkipSpace(line[|key|..]) == afterKey && afterKey != [] && afterKey[0] == EQUALS
    requires SkipSpace(afterKey[1..]) == value && |text| <= |value| && value[..|text|] == text
    requires ValueLength(value) == Some(|text|) && Remark(SkipSpace(value[|text|..])) && Plain(text)
    ensures Classify(line) == Setting(key, text)
  {
    hide KeyLength, SkipSpace, ValueLength, Remark, Plain, Header;
  }

  lemma KeyIsNoHeader(key: Text, rest: Text)
    requires IsKey(key)
    ensures (key + rest) != [] && (key + rest)[0] != HASH && key + rest != Header()
  {
    assert (key + rest)[0] == key[0] && Header()[0] == 91;
  }

  /** A line of that form is read as its key and value. */
  lemma SettingIsRead(line: Text, key: Text, text: Text, a: Text, b: Text, c: Text, remark: Text)
    requires SetsWith(line, key, text, a, b, c, remark)
    ensures Classify(line) == Setting(key, text)
  {
    var afterText := c + remark;
    var value := text + afterText;
    var afterKey := [EQUALS] + (b + value);
    Regrouped(key, a, b, text, c, remark);
    assert line == key + (a + afterKey);
    Separated(a, b, text, c, remark);
    hide Header, Space, KeyUnit, Remark;
    KeyIsNoHeader(key, a + afterKey);
    KeyAhead(key, a + afterKey);
    CutAfter(key, a + afterKey);
    SkipSpaces(a, afterKey);
    CutAfter([EQUALS], b + value);
    SkipSpaces(b, value);
    ValueAhead(text, afterText);
    CutAfter(text, afterText);
    SkipSpaces(c, remark);
    hide *;
    ClassifyIs(line, key, afterKey, value, text);
  }

  lemma Regrouped(key: Text, a: Text, b: Text, text: Text, c: Text, remark: Text)
    ensures key + a + [EQUALS] + b + text + c + remark == key + (a + ([EQUALS] + (b + (text + (c + remark)))))
  {
  }

  /** Where each part of a setting ends, the next one begins with something else. */
  lemma Separated(a: Text, b: Text, text: Text, c: Text, remark: Text)
    requires (IsString(text) || IsInteger(text)) && Spaces(a) && Spaces(b) && Spaces(c) && Remark(remark)
    ensures !KeyUnit((a + ([EQUALS] + (b + (text + (c + remark)))))[0]) && !Space(EQUALS)
    ensures !Space((text + (c + remark))[0]) && (c + remark != [] ==> !Digit((c + remark)[0]))
    ensures (remark != [] ==> !Space(remark[0])) && Plain(text)
  {
    assert (a + ([EQUALS] + (b + (text + (c + remark)))))[0] == if a == [] then EQUALS else a[0];
    assert (text + (c + remark))[0] == text[0];
    assert c + remark != [] ==> (c + remark)[0] == if c == [] then remark[0] else c[0];
  }

  lemma SettingParts(line: Text, key: Text, text: Text) returns (afterKey: Text, value: Text, afterText: Text)
    requires Classify(line) == Setting(key, text)
    ensures |key| <= |line| && line == key + line[|key|..] && IsKey(key) && (IsString(text) || IsInteger(text))
    ensures afterKey == SkipSpace(line[|key|..]) && afterKey != [] && afterKey == [EQUALS] + afterKey[1..]
    ensures value == SkipSpace(afterKey[1..]) && value == text + afterText && Remark(SkipSpace(afterText))
  {
    KeyRead(line);
    afterKey := SkipSpace(line[KeyLength(line)..]);
    value := SkipSpace(afterKey[1..]);
    ValueRead(value);
    afterText := value[|text|..];
    hide KeyLength, SkipSpace, ValueLength, Remark, Plain;
  }

  lemma Assembled(line: Text, key: Text, a: Text, afterKey: Text, b: Text, text: Text, afterText: Text, c: Text, remark: Text)
    requires |key| <= |line| && line == key + line[|key|..] && line[|key|..] == a + afterKey
    requires afterKey != [] && afterKey == [EQUALS] + afterKey[1..] && afterKey[1..] == b + (text + afterText)
    requires afterText == c + remark
    ensures line == key + a + [EQUALS] + b + text + c + remark
  {
  }

  /** And any line that is read as a key and value is of that form. */
  lemma SettingWasWritten(line: Text, key: Text, text: Text) returns (a: Text, b: Text, c: Text, remark: Text)
    requires Bare(line) && Classify(line) == Setting(key, text)
    ensures SetsWith(line, key, text, a, b, c, remark)
  {
    var afterKey, value, afterText := SettingParts(line, key, text);
    hide Classify, SkipSpace, Remark, IsKey, IsString, IsInteger;
    a := SkippedSpaces(line[|key|..]);
    b := SkippedSpaces(afterKey[1..]);
    c := SkippedSpaces(afterText);
    remark := SkipSpace(afterText);
    Assembled(line, key, a, afterKey, b, text, afterText, c, remark);
    if remark == [] && c != [] {
      EndsIn(key + a + [EQUALS] + b + text, c, line);
    }
  }

  lemma EndsIn(front: Text, c: Text, line: Text)
    requires c != [] && line == front + c + [] && Spaces(c)
    ensures !Bare(line)
  {
    assert line[|line| - 1] == c[|c| - 1];
  }

  /** What a raw line is read as: trimmed, a setting if and only if it is one. */
  lemma LineExactly(raw: Text, key: Text, text: Text)
    ensures LineOf(raw) == Setting(key, text) <==> Sets(Trim(raw), key, text)
  {
    var a, b := TrimTakes(raw);
    hide Classify, SetsWith, Trim;
    if LineOf(raw) == Setting(key, text) {
      var a', b', c', remark := SettingWasWritten(Trim(raw), key, text);
    }
    if a', b', c', remark :| SetsWith(Trim(raw), key, text, a', b', c', remark) {
      SettingIsRead(Trim(raw), key, text, a', b', c', remark);
    }
  }

  // ---- which table is the package repository's ----

  /** `a` and then `b` as whole segments, with slashes before, between and after, when the url
      is put between slashes. */
  ghost predicate HasSegments(url: Text, a: Text, b: Text) {
    exists before, after ::
      [SLASH] + url + [SLASH] == before + [SLASH] + (a + [SLASH] + (b + [SLASH] + after))
  }

  lemma {:induction false} UnsplitThen(x: seq<Text>, y: seq<Text>)
    requires x != [] && y != []
    ensures Unsplit(x + y, SLASH) == Unsplit(x, SLASH) + [SLASH] + Unsplit(y, SLASH)
  {
    if |x| == 1 {
      assert (x + y)[1..] == y;
    } else {
      assert (x + y)[0] == x[0] && (x + y)[1..] == x[1..] + y;
      UnsplitThen(x[1..], y);
    }
  }

  lemma BetweenSlashes(url: Text)
    ensures Split([SLASH] + url + [SLASH], SLASH) == [[]] + Split(url, SLASH) + [[]]
  {
    hide Split;
    SplitNone<Unit>([], SLASH);
    SplitAt([], SLASH, url + [SLASH]);
    SplitAt(url, SLASH, []);
    assert [] + [SLASH] + (url + [SLASH]) == [SLASH] + url + [SLASH];
    assert url + [SLASH] + [] == url + [SLASH];
    Associative([[]], Split(url, SLASH), [[]]);
  }

  lemma SegmentsExactly(url: Text, a: Text, b: Text)
    requires a != [] && b != [] && SLASH !in a && SLASH !in b
    ensures HasSegments(url, a, b) <==>
            exists i :: 0 <= i < |Split(url, SLASH)| - 1 && Split(url, SLASH)[i] == a && Split(url, SLASH)[i + 1] == b
  {
    var segments := Split(url, SLASH);
    var all := [[]] + segments + [[]];
    BetweenSlashes(url);
    UnsplitSplit([SLASH] + url + [SLASH], SLASH);
    hide Split, Unsplit;
    if i :| 0 <= i < |segments| - 1 && segments[i] == a && segments[i + 1] == b {
      assert all[i + 1] == a && all[i + 2] == b;
      Joined(all, i, a, b);
    }
    if before, after :| [SLASH] + url + [SLASH] == before + [SLASH] + (a + [SLASH] + (b + [SLASH] + after)) {
      SplitAt(before, SLASH, a + [SLASH] + (b + [SLASH] + after));
      SplitAround(a, b, after);
      InTheMiddle(all, Split(before, SLASH), a, b, Split(after, SLASH));
      var i := |Split(before, SLASH)| - 1;
      assert segments[i] == all[i + 1] && segments[i + 1] == all[i + 2];
    }
  }

  lemma Joined(all: seq<Text>, i: nat, a: Text, b: Text)
    requires i + 3 < |all| && all[i + 1] == a && all[i + 2] == b
    ensures Unsplit(all, SLASH)
         == Unsplit(all[..i + 1], SLASH) + [SLASH] + (a + [SLASH] + (b + [SLASH] + Unsplit(all[i + 3..], SLASH)))
  {
    assert all == all[..i + 1] + ([a] + ([b] + all[i + 3..]));
    UnsplitOne(a);
    UnsplitOne(b);
    hide Unsplit;
    UnsplitThen(all[..i + 1], [a] + ([b] + all[i + 3..]));
    UnsplitThen([a], [b] + all[i + 3..]);
    UnsplitThen([b], all[i + 3..]);
  }

  lemma UnsplitOne(a: Text)
    ensures Unsplit([a], SLASH) == a
  {
  }

  lemma SplitAround(a: Text, b: Text, after: Text)
    requires SLASH !in a && SLASH !in b
    ensures Split(a + [SLASH] + (b + [SLASH] + after), SLASH) == [a] + ([b] + Split(after, SLASH))
  {
    SplitPiece(a, SLASH, b + [SLASH] + after);
    SplitPiece(b, SLASH, after);
  }

  lemma InTheMiddle(all: seq<Text>, x: seq<Text>, a: Text, b: Text, y: seq<Text>)
    requires all == x + ([a] + ([b] + y)) && a != [] && b != [] && x != []
    requires |all| >= 2 && all[0] == [] && all[|all| - 1] == []
    ensures |x| + 1 < |all| - 1 && all[|x|] == a && all[|x| + 1] == b
  {
    assert all[|x| + 1] == b;
  }

  /** A table is the package repository's when its url is the relay's, or has the owner and the
      repository as neighbouring segments. */
  lemma PackageExactly(repo: Repo)
    ensures IsPackageRepo(repo) <==>
            var url := if Literal("url") in repo.values then repo.values[Literal("url")] else [];
            url == Literal("http://127.0.0.1:7417/") || HasSegments(url, Literal("YurtOS"), Literal("yurt-packages"))
  {
    SegmentsExactly(UrlOf(repo), Owner(), Repository());
    assert UrlKey() == Literal("url") && RelayUrl() == Literal("http://127.0.0.1:7417/");
    assert Owner() == Literal("YurtOS") && Repository() == Literal("yurt-packages");
    hide Split, HasSegments, Literal;
  }

  // ---- what a file says ----

  /** Its lines after the last table header before `n`, of which there must be one, are the
      settings of one table. */
  predicate HasTable(raws: seq<Text>, n: nat)
    requires n <= |raws|
  {
    exists i :: 0 <= i < n && LineOf(raws[i]).Table?
  }

  /** A file is refused exactly when a line of it is unreadable, or a setting of no table. */
  predicate Refused(raws: seq<Text>, begun: bool) {
    exists i :: 0 <= i < |raws| &&
      (LineOf(raws[i]).Unreadable? || (LineOf(raws[i]).Setting? && !begun && !HasTable(raws, i)))
  }

  lemma RefusedRest(raws: seq<Text>, begun: bool)
    requires raws != [] && !LineOf(raws[0]).Unreadable? && (LineOf(raws[0]).Setting? ==> begun)
    ensures Refused(raws, begun) <==> Refused(raws[1..], begun || LineOf(raws[0]).Table?)
  {
    hide LineOf;
    var rest, now := raws[1..], begun || LineOf(raws[0]).Table?;
    forall i | 0 < i < |raws|
      ensures HasTable(raws, i) <==> LineOf(raws[0]).Table? || HasTable(rest, i - 1)
    {
      if j :| 0 <= j < i && LineOf(raws[j]).Table? {
        assert j == 0 || rest[j - 1] == raws[j];
      }
      if j :| 0 <= j < i - 1 && LineOf(rest[j]).Table? {
        assert raws[j + 1] == rest[j];
      }
    }
    if i :| 0 <= i < |raws| && (LineOf(raws[i]).Unreadable? || (LineOf(raws[i]).Setting? && !begun && !HasTable(raws, i))) {
      assert i > 0 && rest[i - 1] == raws[i];
    }
    if i :| 0 <= i < |rest| && (LineOf(rest[i]).Unreadable? || (LineOf(rest[i]).Setting? && !now && !HasTable(rest, i))) {
      assert raws[i + 1] == rest[i];
    }
  }

  lemma {:induction false} RefusedExactly(raws: seq<Text>, repos: seq<Repo>)
    ensures Tables(raws, repos).None? <==> Refused(raws, repos != [])
  {
    hide LineOf, Amend;
    if raws != [] {
      if LineOf(raws[0]).Unreadable? || (LineOf(raws[0]).Setting? && repos == []) {
        assert Refused(raws, repos != []);
      } else {
        RefusedRest(raws, repos != []);
        RefusedExactly(raws[1..], Step(raws[0], repos).value);
        hide Refused;
      }
    }
  }

  /** The settings between two headers, in order. */
  function SettingsOf(raws: seq<Text>): seq<(Text, Text)> {
    if raws == [] then []
    else
      (match LineOf(raws[0])
       case Setting(key, text) => [(key, text)]
       case _ => []) + SettingsOf(raws[1..])
  }

  /** No later line sets the key that line `i` sets. */
  predicate LastAt(lines: seq<(Text, Text)>, i: nat)
    requires i < |lines|
  {
    forall j :: i < j < |lines| ==> lines[j].0 != lines[i].0
  }

  /** A string is what is between its quotes; an integer is kept as it is written. */
  predicate Means(text: Text, value: Text) {
    && (IsString(text) ==> value == text[1..|text| - 1])
    && (IsInteger(text) ==> value == text)
  }

  predicate Names(lines: seq<(Text, Text)>, key: Text) {
    exists i :: 0 <= i < |lines| && lines[i].0 == key
  }

  /** A table has the keys its lines set, and of each the value of the last such line. */
  ghost predicate ValuesOf(repo: Repo) {
    && (forall key :: key in repo.values <==> Names(repo.lines, key))
    && (forall i :: 0 <= i < |repo.lines| && LastAt(repo.lines, i) ==>
          repo.lines[i].0 in repo.values && Means(repo.lines[i].1, repo.values[repo.lines[i].0]))
  }

  lemma NamesNext(lines: seq<(Text, Text)>, line: (Text, Text))
    ensures forall key :: Names(lines + [line], key) <==> Names(lines, key) || key == line.0
    ensures LastAt(lines + [line], |lines|)
    ensures forall i :: 0 <= i < |lines| ==> (LastAt(lines + [line], i) <==> LastAt(lines, i) && lines[i].0 != line.0)
  {
    var all := lines + [line];
    assert all[|lines|] == line;
    forall key
      ensures Names(all, key) <==> Names(lines, key) || key == line.0
    {
      if i :| 0 <= i < |lines| && lines[i].0 == key {
        assert all[i].0 == key;
      }
    }
    forall i | 0 <= i < |lines|
      ensures LastAt(all, i) <==> LastAt(lines, i) && lines[i].0 != line.0
    {
      assert forall j :: i < j < |lines| ==> all[j] == lines[j];
    }
  }

  lemma AddMeans(repo: Repo, key: Text, text: Text)
    ensures var after := Add(repo, key, text);
            after.lines == repo.lines + [(key, text)] && after.values.Keys == repo.values.Keys + {key}
            && Means(text, after.values[key]) && forall k :: k in repo.values && k != key ==> after.values[k] == repo.values[k]
  {
  }

  lemma AddValues(repo: Repo, key: Text, text: Text)
    requires ValuesOf(repo)
    ensures ValuesOf(Add(repo, key, text)) && Add(repo, key, text).lines == repo.lines + [(key, text)]
  {
    AddMeans(repo, key, text);
    NamesNext(repo.lines, (key, text));
    hide Add, Names, LastAt, Means;
  }

  /** No header among these lines: their settings go to the last table, in order. */
  lemma {:induction false} SettingsGoLast(raws: seq<Text>, repos: seq<Repo>, rest: seq<Text>) returns (last: Repo)
    requires repos != [] && ValuesOf(repos[|repos| - 1])
    requires forall i :: 0 <= i < |raws| ==> !LineOf(raws[i]).Table? && !LineOf(raws[i]).Unreadable?
    ensures ValuesOf(last) && last.lines == repos[|repos| - 1].lines + SettingsOf(raws)
    ensures Tables(raws + rest, repos) == Tables(rest, repos[|repos| - 1 := last])
    decreases |raws|
  {
    hide LineOf, ValuesOf, Add;
    if raws == [] {
      last := repos[|repos| - 1];
      assert raws + rest == rest && repos[|repos| - 1 := repos[|repos| - 1]] == repos;
      assert repos[|repos| - 1].lines + [] == repos[|repos| - 1].lines;
    } else {
      assert (raws + rest)[0] == raws[0] && (raws + rest)[1..] == raws[1..] + rest;
      match LineOf(raws[0])
      case Setting(key, text) =>
        var more := Amend(repos, key, text);
        AddValues(repos[|repos| - 1], key, text);
        last := SettingsGoLast(raws[1..], more, rest);
        Associative(repos[|repos| - 1].lines, [(key, text)], SettingsOf(raws[1..]));
        assert more[|more| - 1 := last] == repos[|repos| - 1 := last];
      case Blank =>
        last := SettingsGoLast(raws[1..], repos, rest);
        assert [] + SettingsOf(raws[1..]) == SettingsOf(raws[1..]);
    }
  }

  /** A header begins a table, and the settings up to the next one are its own: a table's
      values are those of its lines, the last of a key counting. */
  lemma TableIsRead(header: Text, raws: seq<Text>, rest: seq<Text>, repos: seq<Repo>) returns (table: Repo)
    requires Trim(header) == Header()
    requires forall i :: 0 <= i < |raws| ==> !LineOf(raws[i]).Table? && !LineOf(raws[i]).Unreadable?
    ensures ValuesOf(table) && table.lines == SettingsOf(raws)
    ensures Tables([header] + (raws + rest), repos) == Tables(rest, repos + [table])
  {
    HeaderLine(header);
    TablesOne(header, raws + rest, repos);
    NoValues();
    hide *;
    var more := repos + [Repo([], map[])];
    table := SettingsGoLast(raws, more, rest);
    assert [] + SettingsOf(raws) == SettingsOf(raws);
    assert more[|more| - 1 := table] == repos + [table];
  }

  lemma NoValues()
    ensures ValuesOf(Repo([], map[]))
  {
  }

  lemma HeaderLine(header: Text)
    requires Trim(header) == Header()
    ensures LineOf(header) == Table && forall repos :: Step(header, repos) == Some(repos + [Repo([], map[])])
  {
    assert Header()[0] == 91;
  }

  function FirstNote(): string {
    " In the browser playground the page fetches this repository for pkg"
  }

  function SecondNote(): string {
    " (https://raw.githubusercontent.com/YurtOS/yurt-packages/main/), through its relay on the sandbox's loopback."
  }

  function Comment(note: string): Text {
    [HASH] + Literal(note)
  }

  function RelayLine(): Text {
    UrlKey() + Literal(" = ") + RelayText()
  }

  /** The lines put in place of a url. */
  function Replacement(): seq<Text> {
    [Comment(FirstNote()), Comment(SecondNote()), RelayLine()]
  }

  /** Which table a line is in, or begins. */
  function Here(raw: Text, table: int): int {
    if Trim(raw) == Header() then table + 1 else table
  }

  /** What one line becomes. */
  function NewLines(raw: Text, target: int, here: int): seq<Text> {
    if here == target && SetsUrl(Trim(raw)) then Replacement() else [raw]
  }

  /** The rewritten lines, `table` tables in. */
  function Rewrite(raws: seq<Text>, target: int, table: int): seq<Text>
    decreases |raws|
  {
    hide *;
    if raws == [] then []
    else
      var here := Here(raws[0], table);
      NewLines(raws[0], target, here) + Rewrite(raws[1..], target, here)
  }

  function Relayed(toml: Text): Option<Text> {
    hide *;
    match RepoTablesOf(toml)
    case None => None
    case Some(repos) =>
      var target := FirstPackageRepo(repos);
      if target == |repos| || UrlOf(repos[target]) == RelayUrl() then None
      else Some(Unsplit(Rewrite(Split(toml, NEWLINE), target, -1), NEWLINE))
  }

  predicate TrustsRelay(toml: Text) {
    match RepoTablesOf(toml)
    case None => false
    case Some(repos) => exists i :: 0 <= i < |repos| && IsPackageRepo(repos[i]) && UrlOf(repos[i]) == RelayUrl()
  }

  // ---- the code ----

  method RepoTables(toml: Text) returns (r: Option<seq<Repo>>)
    ensures r == RepoTablesOf(toml)
  {
    var raws := Split(toml, NEWLINE);
    var repos: seq<Repo> := [];
    assert raws[0..] == raws;
    for i := 0 to |raws|
      invariant Tables(raws[i..], repos) == RepoTablesOf(toml)
    {
      hide LineOf, Add;
      assert raws[i..][0] == raws[i] && raws[i..][1..] == raws[i + 1..];
      match LineOf(raws[i]) {
        case Blank =>
        case Table => repos := repos + [Repo([], map[])];
        case Unreadable => return None;
        case Setting(key, text) =>
          if repos == [] {
            return None;
          }
          repos := repos[|repos| - 1 := Add(repos[|repos| - 1], key, text)];
      }
    }
    return Some(repos);
  }

  method RelayTrustedRepos(toml: Text) returns (r: Option<Text>)
    ensures r == Relayed(toml)
  {
    hide Split, Unsplit, Tables, Rewrite, IsPackageRepo, UrlOf, RelayUrl;
    var tables := RepoTables(toml);
    if tables.None? {
      return None;
    }
    var target := FirstPackageRepo(tables.value);
    if target == |tables.value| || UrlOf(tables.value[target]) == RelayUrl() {
      return None;
    }
    var out := RewriteLines(Split(toml, NEWLINE), target);
    return Some(Unsplit(out, NEWLINE));
  }

  /** `flatMap` over the lines, counting tables. */
  method RewriteLines(raws: seq<Text>, target: nat) returns (out: seq<Text>)
    ensures out == Rewrite(raws, target, -1)
  {
    var table := -1;
    out := [];
    hide *;
    assert raws[0..] == raws && out + Rewrite(raws, target, -1) == Rewrite(raws, target, -1);
    for i := 0 to |raws|
      invariant table >= -1
      invariant out + Rewrite(raws[i..], target, table) == Rewrite(raws, target, -1)
    {
      RewriteFirst(raws, i, target, table);
      NewLinesAre(raws[i], target, Here(raws[i], table));
      NewLinesAre(raws[i], target, table);
      var line := Trim(raws[i]);
      if line == Header() {
        table := table + 1;
      }
      var lines := if table != target || !SetsUrl(line) then [raws[i]] else Replacement();
      Associative(out, lines, Rewrite(raws[i + 1..], target, table));
      out := out + lines;
    }
    RewriteNothing(target, table);
    assert raws[|raws|..] == [] && out + [] == out;
  }

  lemma RewriteNothing(target: int, table: int)
    ensures Rewrite([], target, table) == []
  {
  }

  lemma RewriteFirst(raws: seq<Text>, i: nat, target: int, table: int)
    requires i < |raws|
    ensures var here := Here(raws[i], table);
            (Rewrite(raws[i..], target, table) == NewLines(raws[i], target, here) + Rewrite(raws[i + 1..], target, here))
  {
    hide Here, NewLines;
    assert raws[i..][0] == raws[i] && raws[i..][1..] == raws[i + 1..];
  }

  lemma NewLinesAre(raw: Text, target: int, table: int)
    ensures Here(raw, table) == if Trim(raw) == Header() then table + 1 else table
    ensures NewLines(raw, target, table) == if table != target || !SetsUrl(Trim(raw)) then [raw] else Replacement()
  {
    hide Trim, SetsUrl, Header, Replacement;
  }

  // ---- what the rewrite changes ----

  /** The table with its url pointed at the relay, and everything else as it was. */
  function Pointed(repo: Repo): Repo {
    Repo(seq(|repo.lines|, i requires 0 <= i < |repo.lines| =>
               if repo.lines[i].0 == UrlKey() then (UrlKey(), RelayText()) else repo.lines[i]),
         if UrlKey() in repo.values then repo.values[UrlKey() := RelayUrl()] else repo.values)
  }

  /** The tables with only the `target`th pointed. */
  function PointedAt(repos: seq<Repo>, target: nat): seq<Repo> {
    if target < |repos| then repos[target := Pointed(repos[target])] else repos
  }

  lemma {:induction false} KeyLengthIs(key: Text, rest: Text)
    requires forall i :: 0 <= i < |key| ==> KeyUnit(key[i])
    requires rest == [] || !KeyUnit(rest[0])
    ensures KeyLength(key + rest) == |key|
  {
    if key == [] {
      assert key + rest == rest;
    } else {
      KeyLengthIs(key[1..], rest);
      assert (key + rest)[1..] == key[1..] + rest;
    }
  }

  lemma {:induction false} KeyLengthUnits(t: Text)
    ensures forall i :: 0 <= i < KeyLength(t) ==> KeyUnit(t[i])
    ensures KeyLength(t) < |t| ==> !KeyUnit(t[KeyLength(t)])
  {
    if t != [] && KeyUnit(t[0]) {
      KeyLengthUnits(t[1..]);
      assert forall i :: 0 < i < |t| ==> t[i] == t[1..][i - 1];
    }
  }

  /** A readable line is rewritten exactly when it is a setting of `url`. */
  lemma UrlLines(line: Text)
    requires !Classify(line).Unreadable?
    ensures SetsUrl(line) <==> Classify(line).Setting? && Classify(line).key == UrlKey()
  {
    var k := KeyLength(line);
    KeyLengthUnits(line);
    if SetsUrl(line) {
      var rest := line[|UrlKey()|..];
      assert line == UrlKey() + rest;
      assert rest != [] && !KeyUnit(rest[0]);
      KeyLengthIs(UrlKey(), rest);
      assert line[0] == UrlKey()[0] && Header()[0] != UrlKey()[0];
    }
    if Classify(line).Setting? && Classify(line).key == UrlKey() {
      assert line[..k] == UrlKey() && k == |UrlKey()|;
    }
    hide ValueLength, Remark, Plain;
  }

  lemma {:induction false} ContentIs(content: Text, rest: Text)
    requires QUOTE !in content && BACKSLASH !in content
    ensures ContentLength(content + [QUOTE] + rest) == |content|
  {
    if content == [] {
      assert content + [QUOTE] + rest == [QUOTE] + rest;
    } else {
      assert content[0] in content && forall u :: u in content[1..] ==> u in content;
      ContentIs(content[1..], rest);
      assert (content + [QUOTE] + rest)[1..] == content[1..] + [QUOTE] + rest;
    }
  }

  /** A key, " = " and a plain quoted string read back as that setting. */
  lemma WrittenSetting(key: Text, content: Text)
    requires key != [] && forall i :: 0 <= i < |key| ==> KeyUnit(key[i])
    requires forall u :: u in content ==> u >= 0x20 && u != QUOTE && u != BACKSLASH
    ensures var text := [QUOTE] + content + [QUOTE];
            Classify(key + Literal(" = ") + text) == Setting(key, text)
  {
    var text := [QUOTE] + content + [QUOTE];
    var after: Text := [32, EQUALS, 32] + text;
    var line := key + Literal(" = ") + text;
    assert line == key + after;
    KeyLengthIs(key, after);
    assert line[..|key|] == key && line[|key|..] == after;
    SkipOne([EQUALS, 32] + text, 32);
    assert [32] + ([EQUALS, 32] + text) == after;
    assert ([EQUALS, 32] + text)[1..] == [32] + text;
    SkipOne(text, 32);
    QuotedLength(content);
    SkipNothing();
    NoHeader(line);
    PlainQuoted(content);
    Classified(line, after, [EQUALS, 32] + text, text);
  }

  lemma PlainQuoted(content: Text)
    requires forall u :: u in content ==> u >= 0x20
    ensures Plain([QUOTE] + content + [QUOTE])
  {
    var text := [QUOTE] + content + [QUOTE];
    assert forall i :: 0 < i < |text| - 1 ==> text[i] == content[i - 1] && content[i - 1] in content;
  }

  lemma NoHeader(line: Text)
    requires line != [] && KeyUnit(line[0])
    ensures line != Header() && line[0] != HASH
  {
    assert Header()[0] == 91;
  }

  lemma Classified(line: Text, after: Text, equals: Text, text: Text)
    requires line != [] && line[0] != HASH && line != Header()
    requires KeyLength(line) > 0 && line[KeyLength(line)..] == after
    requires SkipSpace(after) == equals && equals != [] && equals[0] == EQUALS
    requires SkipSpace(equals[1..]) == text && ValueLength(text) == Some(|text|) && Plain(text)
    requires SkipSpace([]) == []
    ensures Classify(line) == Setting(line[..KeyLength(line)], text)
  {
    assert text[..|text|] == text && text[|text|..] == [];
    hide SkipSpace, ValueLength, KeyLength, Plain, Header;
  }

  lemma SkipNothing()
    ensures SkipSpace([]) == []
  {
  }

  lemma SkipOne(t: Text, u: Unit)
    requires t != [] && !Space(t[0]) && Space(u)
    ensures SkipSpace([u] + t) == t
  {
    assert ([u] + t)[1..] == t;
  }

  lemma QuotedLength(content: Text)
    requires QUOTE !in content && BACKSLASH !in content
    ensures var text := [QUOTE] + content + [QUOTE];
            ValueLength(text) == Some(|text|)
  {
    var text := [QUOTE] + content + [QUOTE];
    ContentIs(content, []);
    assert text[1..] == content + [QUOTE] + [];
  }

  lemma {:induction false} TrimEndKeepsFirst(t: Text)
    requires t != [] && !Space(t[0])
    ensures TrimEnd(t) != [] && TrimEnd(t)[0] == t[0]
  {
    if |t| > 1 && Space(t[|t| - 1]) {
      TrimEndKeepsFirst(t[..|t| - 1]);
    }
  }

  lemma CommentReads(raw: Text)
    requires raw != [] && raw[0] == HASH
    ensures LineOf(raw) == Blank
  {
    TrimEndKeepsFirst(raw);
    hide TrimEnd;
  }

  lemma TrimsToItself(raw: Text)
    requires raw != [] && !Space(raw[0]) && !Space(raw[|raw| - 1])
    ensures Trim(raw) == raw
  {
  }

  lemma RelayLineReads()
    ensures LineOf(RelayLine()) == Setting(UrlKey(), RelayText())
  {
    assert UrlKey()[0] == 117;
    assert forall i :: 0 <= i < |RelayUrl()| ==> RelayUrl()[i] != QUOTE && RelayUrl()[i] != BACKSLASH;
    hide Classify, RelayUrl, Trim;
    TrimsToItself(RelayLine());
    WrittenSetting(UrlKey(), RelayUrl());
  }

  lemma CommentLine(note: string)
    ensures NEWLINE !in Comment(note) && LineOf(Comment(note)) == Blank
  {
    CommentReads(Comment(note));
    hide LineOf;
  }

  lemma RelayLineIsOne()
    ensures NEWLINE !in RelayLine()
  {
  }

  lemma ReplacementLines()
    ensures |Replacement()| == 3
    ensures forall t :: t in Replacement() ==> NEWLINE !in t
  {
    hide Comment, FirstNote, SecondNote, RelayLine;
    CommentLine(FirstNote());
    CommentLine(SecondNote());
    RelayLineIsOne();
  }

  // ---- the rewrite preserves meaning ----

  lemma NewLinesKeepLines(raw: Text, target: int, here: int)
    requires NEWLINE !in raw
    ensures NewLines(raw, target, here) != []
    ensures forall t :: t in NewLines(raw, target, here) ==> NEWLINE !in t
  {
    hide SetsUrl, Trim, Replacement;
    ReplacementLines();
  }

  lemma {:induction false} RewriteKeepsLines(raws: seq<Text>, target: int, table: int)
    requires forall t :: t in raws ==> NEWLINE !in t
    ensures forall t :: t in Rewrite(raws, target, table) ==> NEWLINE !in t
    ensures raws != [] ==> Rewrite(raws, target, table) != []
  {
    hide NewLines, Here;
    if raws != [] {
      assert raws[0] in raws && forall t :: t in raws[1..] ==> t in raws;
      NewLinesKeepLines(raws[0], target, Here(raws[0], table));
      RewriteKeepsLines(raws[1..], target, Here(raws[0], table));
    }
  }

  lemma TablesOne(raw: Text, rest: seq<Text>, repos: seq<Repo>)
    ensures Tables([raw] + rest, repos)
         == if Step(raw, repos).None? then None else Tables(rest, Step(raw, repos).value)
  {
    assert ([raw] + rest)[1..] == rest;
    hide Step;
  }

  lemma TablesOfReplacement(rest: seq<Text>, repos: seq<Repo>)
    requires repos != []
    ensures Tables(Replacement() + rest, repos)
         == Tables(rest, Amend(repos, UrlKey(), RelayText()))
  {
    hide *;
    CommentLine(FirstNote());
    CommentLine(SecondNote());
    RelayLineReads();
    ReplacementIs(rest);
    TablesOne(Comment(FirstNote()), [Comment(SecondNote())] + ([RelayLine()] + rest), repos);
    TablesOne(Comment(SecondNote()), [RelayLine()] + rest, repos);
    TablesOne(RelayLine(), rest, repos);
    StepIs(Comment(FirstNote()), repos);
    StepIs(Comment(SecondNote()), repos);
    StepIs(RelayLine(), repos);
  }

  lemma StepIs(raw: Text, repos: seq<Repo>)
    requires repos != []
    ensures LineOf(raw).Blank? ==> Step(raw, repos) == Some(repos)
    ensures LineOf(raw).Setting? ==>
              Step(raw, repos) == Some(Amend(repos, LineOf(raw).key, LineOf(raw).text))
  {
    hide LineOf, Amend;
  }

  lemma ReplacementIs(rest: seq<Text>)
    ensures Replacement() + rest == [Comment(FirstNote())] + ([Comment(SecondNote())] + ([RelayLine()] + rest))
  {
    hide FirstNote, SecondNote, RelayLine;
  }

  /** Adding a setting and pointing the table commute, a url becoming the relay's. */
  lemma AddPointed(repo: Repo, key: Text, text: Text)
    requires text != [] && (text[0] == QUOTE ==> |text| >= 2)
    ensures Pointed(Add(repo, key, text)) == if key == UrlKey() then Add(Pointed(repo), UrlKey(), RelayText())
                                             else Add(Pointed(repo), key, text)
  {
    RelayValue();
    hide RelayText, RelayUrl, UrlKey, ValueOf;
    var a := Pointed(Add(repo, key, text));
    var b := if key == UrlKey() then Add(Pointed(repo), UrlKey(), RelayText()) else Add(Pointed(repo), key, text);
    assert a.lines == b.lines;
    assert a.values == b.values;
  }

  lemma RelayValue()
    ensures |RelayText()| >= 2 && ValueOf(RelayText()) == RelayUrl()
  {
    assert RelayText()[1..|RelayText()| - 1] == RelayUrl();
  }

  lemma SettingText(line: Text)
    requires Classify(line).Setting?
    ensures var text := Classify(line).text;
            text != [] && (text[0] == QUOTE ==> |text| >= 2)
  {
    hide KeyLength, SkipSpace, Remark, Plain;
  }

  /** One line, rewritten, reads as the original line does on the pointed tables. */
  lemma StepPointed(raw: Text, rest: seq<Text>, repos: seq<Repo>, target: nat)
    requires Step(raw, repos).Some?
    ensures |Step(raw, repos).value| - 1 == Here(raw, |repos| - 1)
    ensures Tables(NewLines(raw, target, Here(raw, |repos| - 1)) + rest, PointedAt(repos, target))
         == Tables(rest, PointedAt(Step(raw, repos).value, target))
  {
    hide *;
    var pointed := PointedAt(repos, target);
    StepCases(raw, repos);
    NewLinesCases(raw, target, |repos| - 1);
    TablesOne(raw, rest, pointed);
    match LineOf(raw)
    case Blank =>
      StepCases(raw, pointed);
    case Table =>
      StepCases(raw, pointed);
      PointedTable(repos, target);
    case Setting(key, text) =>
      SettingText(Trim(raw));
      PointedSetting(repos, target, key, text);
      StepCases(raw, pointed);
      TablesOfReplacement(rest, pointed);
  }

  /** What reading a line does, and which table it is in. */
  lemma StepCases(raw: Text, repos: seq<Repo>)
    ensures LineOf(raw).Blank? ==> Step(raw, repos) == Some(repos)
    ensures LineOf(raw).Table? ==> Step(raw, repos) == Some(repos + [Repo([], map[])])
    ensures LineOf(raw).Unreadable? ==> Step(raw, repos) == None
    ensures LineOf(raw).Setting? ==>
              var key, text := LineOf(raw).key, LineOf(raw).text;
              (Step(raw, repos) == if repos == [] then None
                                   else Some(Amend(repos, key, text)))
    ensures LineOf(raw) == Classify(Trim(raw))
  {
    hide Classify, Trim, Amend;
  }

  /** What the rewrite puts for a readable line. */
  lemma NewLinesCases(raw: Text, target: int, table: int)
    requires !LineOf(raw).Unreadable?
    ensures Here(raw, table) == if LineOf(raw).Table? then table + 1 else table
    ensures NewLines(raw, target, Here(raw, table))
         == if Here(raw, table) == target && LineOf(raw).Setting? && LineOf(raw).key == UrlKey() then Replacement() else [raw]
  {
    hide Trim, Classify, SetsUrl, Header, Replacement, UrlKey;
    UrlLines(Trim(raw));
    TableIsHeader(Trim(raw));
  }

  lemma PointedTable(repos: seq<Repo>, target: nat)
    ensures PointedAt(repos + [Repo([], map[])], target) == PointedAt(repos, target) + [Repo([], map[])]
    ensures |PointedAt(repos, target)| == |repos|
  {
    EmptyPointed();
    hide Pointed;
  }

  lemma PointedSetting(repos: seq<Repo>, target: nat, key: Text, text: Text)
    requires repos != [] && text != [] && (text[0] == QUOTE ==> |text| >= 2)
    ensures |PointedAt(repos, target)| == |repos|
    ensures PointedAt(Amend(repos, key, text), target)
         == if |repos| - 1 == target && key == UrlKey() then Amend(PointedAt(repos, target), UrlKey(), RelayText())
            else Amend(PointedAt(repos, target), key, text)
  {
    AddPointed(repos[|repos| - 1], key, text);
    hide Pointed, Add, UrlKey, RelayText;
  }

  lemma TableIsHeader(line: Text)
    ensures Classify(line).Table? <==> line == Header()
  {
    assert Header()[0] == 91;
    hide KeyLength, SkipSpace, Remark, Plain, ValueLength;
  }

  lemma EmptyPointed()
    ensures Pointed(Repo([], map[])) == Repo([], map[])
  {
  }

  /** Reading the rewritten lines gives the tables read from the original ones, with the
      target alone pointed. */
  lemma {:induction false} RewriteReads(raws: seq<Text>, target: nat, repos: seq<Repo>)
    requires Tables(raws, repos).Some?
    ensures Tables(Rewrite(raws, target, |repos| - 1), PointedAt(repos, target))
         == Some(PointedAt(Tables(raws, repos).value, target))
    decreases |raws|
  {
    hide Step, NewLines, Here, PointedAt;
    if raws != [] {
      var after := Step(raws[0], repos).value;
      StepPointed(raws[0], Rewrite(raws[1..], target, Here(raws[0], |repos| - 1)), repos, target);
      RewriteReads(raws[1..], target, after);
    }
  }

  lemma PointedIsPackageRepo(repo: Repo)
    requires IsPackageRepo(repo)
    ensures IsPackageRepo(Pointed(repo)) && UrlOf(Pointed(repo)) == RelayUrl()
  {
    NoUrlNoPackage(repo);
    hide RelayUrl, Owner, Repository, UrlKey;
  }

  lemma NoUrlNoPackage(repo: Repo)
    requires IsPackageRepo(repo)
    ensures UrlKey() in repo.values
  {
    assert Split<Unit>([], SLASH) == [[]] by { SplitNone<Unit>([], SLASH); }
    assert |RelayUrl()| > 0;
  }

  lemma FirstIs(repos: seq<Repo>, i: nat)
    requires i <= |repos| && (i < |repos| ==> IsPackageRepo(repos[i]))
    requires forall j :: 0 <= j < i ==> !IsPackageRepo(repos[j])
    ensures FirstPackageRepo(repos) == i
  {
    FirstOfAll(repos);
    hide IsPackageRepo;
  }

  /** When there is something to rewrite, and what it becomes. */
  lemma RelayedCases(toml: Text)
    ensures Relayed(toml).Some? ==>
              && Tables(Split(toml, NEWLINE), []) == RepoTablesOf(toml)
              && RepoTablesOf(toml).Some?
              && FirstPackageRepo(RepoTablesOf(toml).value) < |RepoTablesOf(toml).value|
              && Relayed(toml).value
              == Unsplit(Rewrite(Split(toml, NEWLINE), FirstPackageRepo(RepoTablesOf(toml).value), -1), NEWLINE)
  {
    hide Tables, Split, FirstPackageRepo, UrlOf, RelayUrl, Rewrite, Unsplit;
  }

  /** Once the first package table is at the relay, there is nothing left to do. */
  lemma NothingToDo(toml: Text, repos: seq<Repo>, target: nat)
    requires RepoTablesOf(toml) == Some(repos) && target < |repos|
    requires FirstPackageRepo(repos) == target && IsPackageRepo(repos[target])
    requires UrlOf(repos[target]) == RelayUrl()
    ensures TrustsRelay(toml) && Relayed(toml) == None
  {
    hide RepoTablesOf, FirstPackageRepo, UrlOf, RelayUrl, IsPackageRepo, Rewrite, Unsplit, Split;
  }

  lemma LinesReadBack(lines: seq<Text>)
    requires lines != [] && forall t :: t in lines ==> NEWLINE !in t
    ensures RepoTablesOf(Unsplit(lines, NEWLINE)) == Tables(lines, [])
  {
    hide Tables, Split, Unsplit;
    SplitUnsplit(lines, NEWLINE);
  }

  lemma SplitLines(toml: Text)
    ensures Split(toml, NEWLINE) != [] && forall t :: t in Split(toml, NEWLINE) ==> NEWLINE !in t
  {
    SplitPieces(toml, NEWLINE);
    hide Split;
  }

  lemma PointedFirst(repos: seq<Repo>, target: nat)
    requires target < |repos| && FirstPackageRepo(repos) == target
    ensures var after := PointedAt(repos, target);
            |after| == |repos| && FirstPackageRepo(after) == target
            && IsPackageRepo(after[target]) && UrlOf(after[target]) == RelayUrl()
    ensures PointedAt([], target) == []
  {
    hide IsPackageRepo, Pointed, UrlOf, RelayUrl, FirstPackageRepo;
    FirstOfAll(repos);
    PointedIsPackageRepo(repos[target]);
    FirstIs(PointedAt(repos, target), target);
  }

  /** The rewrite preserves meaning: its result reads as the same tables with only the
      first package table's url changed, to the relay's; that table then trusts the relay,
      and a second rewrite finds nothing to do. */
  lemma RelayPreservesMeaning(toml: Text)
    requires Relayed(toml).Some?
    ensures RepoTablesOf(toml).Some?
    ensures FirstPackageRepo(RepoTablesOf(toml).value) < |RepoTablesOf(toml).value|
    ensures RepoTablesOf(Relayed(toml).value)
         == Some(PointedAt(RepoTablesOf(toml).value, FirstPackageRepo(RepoTablesOf(toml).value)))
    ensures TrustsRelay(Relayed(toml).value)
    ensures Relayed(Relayed(toml).value) == None
  {
    hide *;
    RelayedCases(toml);
    var raws := Split(toml, NEWLINE);
    var repos := RepoTablesOf(toml).value;
    var target := FirstPackageRepo(repos);
    SplitLines(toml);
    RewriteKeepsLines(raws, target, -1);
    LinesReadBack(Rewrite(raws, target, -1));
    RewriteReads(raws, target, []);
    PointedFirst(repos, target);
    NothingToDo(Relayed(toml).value, PointedAt(repos, target), target);
  }

  ghost predicate NoneToPoint(repos: seq<Repo>) {
    || (forall i :: 0 <= i < |repos| ==> !IsPackageRepo(repos[i]))
    || (exists i :: 0 <= i < |repos| && UrlOf(repos[i]) == RelayUrl() && forall j :: 0 <= j < i ==> !IsPackageRepo(repos[j]))
  }

  /** The rewrite is left out exactly when the file cannot be read, names no package table,
      or has the first one at the relay already. */
  lemma LeftAlone(toml: Text)
    ensures Relayed(toml) == None <==> RepoTablesOf(toml).None? || NoneToPoint(RepoTablesOf(toml).value)
  {
    hide RepoTablesOf, Rewrite, Unsplit, Split, RelayUrl;
    if RepoTablesOf(toml).Some? {
      var repos := RepoTablesOf(toml).value;
      FirstOfAll(repos);
      forall i | 0 <= i < |repos| && UrlOf(repos[i]) == RelayUrl() ensures IsPackageRepo(repos[i]) {
      }
    }
  }
}
