/** Release notes: commit abbreviations just long enough, and subjects escaped for Markdown. */
module ReleaseNotes {
  import opened Options

  const MAX_RELEASE_NOTE_COMMITS := 512
  const MAX_RELEASE_NOTE_SUBJECT_BYTES := 512
  const MAX_RELEASE_NOTES_BYTES := 65536

  datatype Commit = Commit(sha: string, subject: string)

  // ----- Escaping

  const MARKS := "\\`*_[]{}()!|~"

  function Entity(c: char): Option<string> {
    match c
    case '&' => Some("&amp;")
    case '<' => Some("&lt;")
    case '>' => Some("&gt;")
    case '@' => Some("&#64;")
    case _ => None
  }

  /** One character on its own. */
  function Code(c: char): string {
    if Entity(c).Some? then Entity(c).value else if c in MARKS then ['\\', c] else [c]
  }

  function Encode(s: string): string {
    if s == "" then "" else Code(s[0]) + Encode(s[1..])
  }

  function ReplaceAll(s: string, c: char, put: string): string {
    if s == "" then "" else (if s[0] == c then put else [s[0]]) + ReplaceAll(s[1..], c, put)
  }

  function BackslashMarks(s: string): string {
    if s == "" then "" else (if s[0] in MARKS then ['\\', s[0]] else [s[0]]) + BackslashMarks(s[1..])
  }

  /** The chain of replacements, each over the output of the one before. */
  function EscapeReleaseSubject(s: string): string {
    BackslashMarks(Entities(s))
  }

  function Entities(s: string): string {
    ReplaceAll(ReplaceAll(ReplaceAll(ReplaceAll(s, '&', "&amp;"), '<', "&lt;"), '>', "&gt;"), '@', "&#64;")
  }

  lemma {:induction false} ReplaceConcat(a: string, b: string, c: char, put: string)
    ensures ReplaceAll(a + b, c, put) == ReplaceAll(a, c, put) + ReplaceAll(b, c, put)
  {
    if a == "" {
      assert a + b == b;
    } else {
      assert (a + b)[1..] == a[1..] + b;
      ReplaceConcat(a[1..], b, c, put);
    }
  }

  lemma {:induction false} BackslashConcat(a: string, b: string)
    ensures BackslashMarks(a + b) == BackslashMarks(a) + BackslashMarks(b)
  {
    if a == "" {
      assert a + b == b;
    } else {
      assert (a + b)[1..] == a[1..] + b;
      BackslashConcat(a[1..], b);
    }
  }

  lemma {:induction false} ReplaceAbsent(s: string, c: char, put: string)
    requires c !in s
    ensures ReplaceAll(s, c, put) == s
  {
    if s != "" { ReplaceAbsent(s[1..], c, put); }
  }

  lemma {:induction false} BackslashAbsent(s: string)
    requires forall c <- s :: c !in MARKS
    ensures BackslashMarks(s) == s
  {
    if s != "" { BackslashAbsent(s[1..]); }
  }

  lemma EscapeConcat(a: string, b: string)
    ensures EscapeReleaseSubject(a + b) == EscapeReleaseSubject(a) + EscapeReleaseSubject(b)
  {
    ReplaceConcat(a, b, '&', "&amp;");
    var a1, b1 := ReplaceAll(a, '&', "&amp;"), ReplaceAll(b, '&', "&amp;");
    ReplaceConcat(a1, b1, '<', "&lt;");
    var a2, b2 := ReplaceAll(a1, '<', "&lt;"), ReplaceAll(b1, '<', "&lt;");
    ReplaceConcat(a2, b2, '>', "&gt;");
    var a3, b3 := ReplaceAll(a2, '>', "&gt;"), ReplaceAll(b2, '>', "&gt;");
    ReplaceConcat(a3, b3, '@', "&#64;");
    BackslashConcat(ReplaceAll(a3, '@', "&#64;"), ReplaceAll(b3, '@', "&#64;"));
  }

  lemma ReplaceOnly(c: char, put: string)
    ensures ReplaceAll([c], c, put) == put
  {
    assert [c][1..] == "" && ReplaceAll("", c, put) == "";
    assert put + "" == put;
  }

  /** What an earlier replacement puts in survives the later ones. */
  lemma ChainOne(c: char, amp: string, lt: string, gt: string, at: string)
    requires '<' !in amp && '>' !in amp && '@' !in amp && '>' !in lt && '@' !in lt && '@' !in gt
    ensures ReplaceAll(ReplaceAll(ReplaceAll(ReplaceAll([c], '&', amp), '<', lt), '>', gt), '@', at) ==
            if c == '&' then amp else if c == '<' then lt else if c == '>' then gt else if c == '@' then at else [c]
  {
    var s1 := ReplaceAll([c], '&', amp);
    var s2 := ReplaceAll(s1, '<', lt);
    var s3 := ReplaceAll(s2, '>', gt);
    if c == '&' { ReplaceOnly(c, amp); } else { ReplaceAbsent([c], '&', amp); }
    if c == '<' { ReplaceOnly(c, lt); } else { ReplaceAbsent(s1, '<', lt); }
    if c == '>' { ReplaceOnly(c, gt); } else { ReplaceAbsent(s2, '>', gt); }
    if c == '@' { ReplaceOnly(c, at); } else { ReplaceAbsent(s3, '@', at); }
  }

  lemma EntitiesOne(c: char)
    ensures Entities([c]) == if Entity(c).Some? then Entity(c).value else [c]
  {
    ChainOne(c, "&amp;", "&lt;", "&gt;", "&#64;");
  }

  lemma EntityHasNoMarks(c: char)
    requires Entity(c).Some?
    ensures forall x <- Entity(c).value :: x !in MARKS
  {}

  lemma BackslashOne(c: char)
    ensures BackslashMarks([c]) == if c in MARKS then ['\\', c] else [c]
  {
    assert [c][1..] == "" && BackslashMarks("") == "";
    assert ['\\', c] + "" == ['\\', c];
  }

  lemma EscapeOne(c: char)
    ensures EscapeReleaseSubject([c]) == Code(c)
  {
    EntitiesOne(c);
    if Entity(c).Some? {
      EntityHasNoMarks(c);
      BackslashAbsent(Entity(c).value);
    } else {
      BackslashOne(c);
    }
  }

  /** The chain is the same as encoding character by character. */
  lemma {:induction false} ChainIsCharacterwise(s: string)
    ensures EscapeReleaseSubject(s) == Encode(s)
  {
    if s != "" {
      assert s == [s[0]] + s[1..];
      EscapeConcat([s[0]], s[1..]);
      EscapeOne(s[0]);
      ChainIsCharacterwise(s[1..]);
    }
  }

  // ----- Reading it back

  predicate StartsWith(s: string, p: string) { |p| <= |s| && s[..|p|] == p }

  /** The first character of an encoded subject and how much of it stands for it. */
  function Head(s: string): Option<(char, nat)>
    requires s != ""
  {
    if StartsWith(s, "&amp;") then Some(('&', 5))
    else if StartsWith(s, "&lt;") then Some(('<', 4))
    else if StartsWith(s, "&gt;") then Some(('>', 4))
    else if StartsWith(s, "&#64;") then Some(('@', 5))
    else if s[0] == '\\' then (if |s| > 1 && s[1] in MARKS then Some((s[1], 2)) else None)
    else if Code(s[0]) == [s[0]] then Some((s[0], 1)) else None
  }

  function Decode(s: string): Option<string>
    decreases |s|
  {
    if s == "" then Some("")
    else match Head(s)
      case None => None
      case Some((c, n)) =>
        if 0 < n <= |s| then
          (match Decode(s[n..]) case None => None case Some(rest) => Some([c] + rest))
        else None
  }

  lemma HeadOfCode(c: char, rest: string)
    ensures Head(Code(c) + rest) == Some((c, |Code(c)|))
  {
    var s := Code(c) + rest;
    assert s[..|Code(c)|] == Code(c) && s[0] == Code(c)[0];
    if Entity(c).Some? {
      assert c == '<' ==> s[1] == 'l';
      assert c == '>' ==> s[1] == 'g';
      assert c == '@' ==> s[1] == '#';
    }
  }

  lemma HeadIsCode(s: string)
    requires s != "" && Head(s).Some?
    ensures var (c, n) := Head(s).value; 0 < n <= |s| && s[..n] == Code(c)
  {
    assert s[..1] == [s[0]];
  }

  /** Printing and reading back gives the subject, so different subjects print differently. */
  lemma {:induction false} DecodeEncode(s: string)
    ensures Decode(Encode(s)) == Some(s)
  {
    if s != "" {
      HeadOfCode(s[0], Encode(s[1..]));
      assert Encode(s)[|Code(s[0])|..] == Encode(s[1..]);
      DecodeEncode(s[1..]);
      assert s == [s[0]] + s[1..];
    }
  }

  lemma EncodeCons(c: char, rest: string)
    ensures Encode([c] + rest) == Code(c) + Encode(rest)
  {
    assert ([c] + rest)[1..] == rest;
  }

  /** The first character read, and what is left to read. */
  lemma DecodeStep(t: string) returns (c: char, n: nat)
    requires t != "" && Decode(t).Some?
    ensures 0 < n <= |t| && t[..n] == Code(c)
    ensures Decode(t[n..]).Some? && Decode(t).value == [c] + Decode(t[n..]).value
  {
    HeadIsCode(t);
    c, n := Head(t).value.0, Head(t).value.1;
  }

  /** Nothing else reads back as a subject. */
  lemma {:induction false} EncodeDecode(t: string, s: string)
    requires Decode(t) == Some(s)
    ensures Encode(s) == t
    decreases |t|
  {
    if t != "" {
      var c, n := DecodeStep(t);
      var rest := Decode(t[n..]).value;
      EncodeDecode(t[n..], rest);
      EncodeCons(c, rest);
      assert t == t[..n] + t[n..];
    }
  }

  lemma EscapeIsInjective(a: string, b: string)
    ensures EscapeReleaseSubject(a) == EscapeReleaseSubject(b) <==> a == b
  {
    ChainIsCharacterwise(a);
    ChainIsCharacterwise(b);
    DecodeEncode(a);
    DecodeEncode(b);
  }

  /** What Markdown or a mention would act on. */
  predicate Active(c: char) {
    || c == '\\' || c == '`' || c == '*' || c == '_' || c == '[' || c == ']' || c == '{' || c == '}'
    || c == '(' || c == ')' || c == '!' || c == '|' || c == '~'
  }

  /** Read from the left, every active character is behind a backslash of its own, and there is
      no angle bracket and no at sign at all. */
  predicate Inert(t: string) {
    if t == "" then true
    else if t[0] == '\\' then |t| > 1 && Active(t[1]) && Inert(t[2..])
    else !Active(t[0]) && t[0] != '<' && t[0] != '>' && t[0] != '@' && Inert(t[1..])
  }

  lemma {:induction false} InertConcat(a: string, b: string)
    requires Inert(a) && Inert(b)
    ensures Inert(a + b)
  {
    if a == "" {
      assert a + b == b;
    } else if a[0] == '\\' {
      assert (a + b)[2..] == a[2..] + b;
      InertConcat(a[2..], b);
    } else {
      assert (a + b)[1..] == a[1..] + b;
      InertConcat(a[1..], b);
    }
  }

  lemma CodeIsInert(c: char)
    ensures Inert(Code(c)) && (Active(c) <==> Code(c) == ['\\', c])
  {
    var code := Code(c);
    if Entity(c).Some? {
      PlainIsInert(code);
    } else if c in MARKS {
      assert Active(c) && code[2..] == "";
    } else {
      PlainIsInert(code);
    }
  }

  lemma {:induction false} PlainIsInert(t: string)
    requires forall i :: 0 <= i < |t| ==> !Active(t[i]) && t[i] != '<' && t[i] != '>' && t[i] != '@'
    ensures Inert(t)
  {
    if t != "" {
      assert !Active(t[0]);
      PlainIsInert(t[1..]);
    }
  }

  /** A printed subject cannot act: all that is active in it is escaped, and nothing else is. */
  lemma {:induction false} EscapedIsInert(s: string)
    ensures Inert(EscapeReleaseSubject(s))
  {
    ChainIsCharacterwise(s);
    if s != "" {
      EscapedIsInert(s[1..]);
      ChainIsCharacterwise(s[1..]);
      CodeIsInert(s[0]);
      InertConcat(Code(s[0]), Encode(s[1..]));
    }
  }

  lemma {:induction false} PlainIsUntouched(s: string)
    requires forall c <- s :: !Active(c) && c !in "&<>@"
    ensures EscapeReleaseSubject(s) == s
  {
    ChainIsCharacterwise(s);
    if s != "" {
      PlainIsUntouched(s[1..]);
      ChainIsCharacterwise(s[1..]);
      CodeIsInert(s[0]);
      assert s == [s[0]] + s[1..];
    }
  }

  // ----- Abbreviations

  predicate Sha(s: string) { |s| == 40 && forall c <- s :: '0' <= c <= '9' || 'a' <= c <= 'f' }

  predicate Distinct(ss: seq<string>) { forall i, j :: 0 <= i < j < |ss| ==> ss[i] != ss[j] }

  function Shas(commits: seq<Commit>): seq<string> {
    seq(|commits|, i requires 0 <= i < |commits| => commits[i].sha)
  }

  function Short(s: string, n: nat): string { if n < |s| then s[..n] else s }

  function Abbreviations(commits: seq<Commit>, n: nat): seq<string> {
    seq(|commits|, i requires 0 <= i < |commits| => Short(commits[i].sha, n))
  }

  function Elements(ss: seq<string>): set<string> { set x | x in ss }

  /** Counting the different ones tells whether all are different. */
  lemma {:induction false} CountTells(ss: seq<string>)
    ensures |Elements(ss)| <= |ss| && (|Elements(ss)| == |ss| <==> Distinct(ss))
  {
    if ss != [] {
      var last, rest := ss[|ss| - 1], ss[..|ss| - 1];
      CountTells(rest);
      assert ss == rest + [last];
      assert Elements(ss) == Elements(rest) + {last};
      if last in rest {
        assert Elements(ss) == Elements(rest);
        var i :| 0 <= i < |rest| && rest[i] == last;
        assert ss[i] == ss[|ss| - 1];
      } else {
        assert Distinct(rest) ==> Distinct(ss);
      }
    }
  }

  /** The least length from 7 up at which all abbreviations differ. */
  method AbbreviationLength(commits: seq<Commit>) returns (n: nat)
    requires Distinct(Shas(commits)) && forall c <- commits :: Sha(c.sha)
    ensures 7 <= n <= 40 && Distinct(Abbreviations(commits, n))
    ensures forall m :: 7 <= m < n ==> !Distinct(Abbreviations(commits, m))
  {
    n := 7;
    while n < 40 && |Elements(Abbreviations(commits, n))| < |commits|
      invariant 7 <= n <= 40 && forall m :: 7 <= m < n ==> !Distinct(Abbreviations(commits, m))
    {
      CountTells(Abbreviations(commits, n));
      n := n + 1;
    }
    CountTells(Abbreviations(commits, n));
    if n == 40 {
      assert Abbreviations(commits, n) == Shas(commits);
    }
  }

  // ----- The whole text

  function Utf8Length(s: string): nat {
    if s == "" then 0
    else
      var c := s[|s| - 1] as int;
      Utf8Length(s[..|s| - 1]) + if c < 0x80 then 1 else if c < 0x800 then 2 else if c < 0x10000 then 3 else 4
  }

  predicate Control(c: char) {
    var n := c as int;
    n <= 0x1f || n == 0x7f || n == 0x2028 || n == 0x2029
  }

  predicate SubjectOk(s: string) {
    s != "" && (forall c <- s :: !Control(c)) && Utf8Length(s) <= MAX_RELEASE_NOTE_SUBJECT_BYTES
  }

  predicate Acceptable(commits: seq<Commit>) {
    && 0 < |commits| <= MAX_RELEASE_NOTE_COMMITS && Distinct(Shas(commits))
    && forall c <- commits :: Sha(c.sha) && SubjectOk(c.subject)
  }

  function Line(c: Commit, n: nat): string { "- `" + Short(c.sha, n) + "` " + EscapeReleaseSubject(c.subject) }

  function Lines(commits: seq<Commit>, n: nat): seq<string> {
    seq(|commits|, i requires 0 <= i < |commits| => Line(commits[i], n))
  }

  /** Each line ended, which for at least one line is joining them and ending the last. */
  function Unlines(lines: seq<string>): string {
    if lines == [] then "" else lines[0] + "\n" + Unlines(lines[1..])
  }

  const HEADING := "## Changes\n\n"

  function Body(commits: seq<Commit>, n: nat): string { HEADING + Unlines(Lines(commits, n)) }

  method Validate(commits: seq<Commit>) returns (ok: bool)
    ensures ok <==> Acceptable(commits)
  {
    if |commits| == 0 || |commits| > MAX_RELEASE_NOTE_COMMITS { return false; }
    var seen: set<string> := {};
    for i := 0 to |commits|
      invariant forall s :: s in seen <==> exists j :: 0 <= j < i && commits[j].sha == s
      invariant forall j, k :: 0 <= j < k < i ==> commits[j].sha != commits[k].sha
      invariant forall j :: 0 <= j < i ==> Sha(commits[j].sha) && SubjectOk(commits[j].subject)
    {
      var c := commits[i];
      assert c in commits;
      if !Sha(c.sha) { return false; }
      if c.sha in seen {
        var j :| 0 <= j < i && commits[j].sha == c.sha;
        assert Shas(commits)[j] == Shas(commits)[i];
        return false;
      }
      seen := seen + {c.sha};
      if !SubjectOk(c.subject) { return false; }
    }
    return true;
  }

  /** The notes are refused exactly for unacceptable commits or too long a text, and otherwise
      use the least sufficient abbreviation length. */
  method RenderReleaseNotes(commits: seq<Commit>) returns (body: Option<string>, ghost n: nat)
    ensures Acceptable(commits) ==> 7 <= n <= 40 && Distinct(Abbreviations(commits, n))
    ensures Acceptable(commits) ==> forall m :: 7 <= m < n ==> !Distinct(Abbreviations(commits, m))
    ensures body.Some? <==> Acceptable(commits) && Utf8Length(Body(commits, n)) <= MAX_RELEASE_NOTES_BYTES
    ensures body.Some? ==> body.value == Body(commits, n)
  {
    n := 0;
    var ok := Validate(commits);
    if !ok { return None, n; }
    var length := AbbreviationLength(commits);
    n := length;
    var text := Body(commits, length);
    if Utf8Length(text) > MAX_RELEASE_NOTES_BYTES { return None, n; }
    return Some(text), n;
  }

  /** The text for one commit. */
  lemma BodyOfOne(c: Commit)
    requires Sha(c.sha)
    ensures Body([c], 7) == "## Changes\n\n- `" + c.sha[..7] + "` " + EscapeReleaseSubject(c.subject) + "\n"
  {
    var line := Line(c, 7);
    assert Lines([c], 7) == [line] && [line][1..] == [] && Unlines([]) == "";
    assert Unlines([line]) == line + "\n";
    assert HEADING + "- `" == "## Changes\n\n- `";
  }

  // ----- The text tells the commits apart

  lemma FirstBreak(a: string, b: string, c: char, x: string, y: string)
    requires c !in a && c !in b && a + [c] + x == b + [c] + y
    ensures a == b && x == y
  {
    var s := a + [c] + x;
    assert s[|a|] == c && s[|b|] == c;
    assert (forall i :: 0 <= i < |a| ==> s[i] == a[i]) && (forall i :: 0 <= i < |b| ==> s[i] == b[i]);
    assert |a| == |b|;
    assert a == s[..|a|] && b == s[..|a|];
    assert x == s[|a| + 1..] && y == s[|a| + 1..];
  }

  lemma {:induction false} UnlinesInjective(a: seq<string>, b: seq<string>)
    requires (forall l <- a :: '\n' !in l) && (forall l <- b :: '\n' !in l)
    requires Unlines(a) == Unlines(b)
    ensures a == b
    decreases |a|
  {
    if a != [] && b != [] {
      FirstBreak(a[0], b[0], '\n', Unlines(a[1..]), Unlines(b[1..]));
      UnlinesInjective(a[1..], b[1..]);
      assert a == [a[0]] + a[1..] && b == [b[0]] + b[1..];
    } else {
      assert |Unlines(a)| == |Unlines(b)|;
    }
  }

  lemma {:induction false} EncodeKeepsOut(s: string, c: char)
    requires c !in s && (forall x :: x != c ==> c !in Code(x))
    ensures c !in Encode(s)
  {
    if s != "" { EncodeKeepsOut(s[1..], c); }
  }

  lemma ShortIsHex(sha: string, n: nat, c: char)
    requires Sha(sha) && c in Short(sha, n)
    ensures '0' <= c <= '9' || 'a' <= c <= 'f'
  {
    assert c in sha;
  }

  lemma CodeHasNoBreak(c: char)
    requires c != '\n'
    ensures '\n' !in Code(c)
  {}

  lemma OneLine(c: Commit, n: nat)
    requires Sha(c.sha) && SubjectOk(c.subject)
    ensures '\n' !in Line(c, n)
  {
    assert Control('\n');
    ChainIsCharacterwise(c.subject);
    forall x: char | x != '\n'
      ensures '\n' !in Code(x)
    {
      CodeHasNoBreak(x);
    }
    EncodeKeepsOut(c.subject, '\n');
    assert '\n' !in Short(c.sha, n) by { if '\n' in Short(c.sha, n) { ShortIsHex(c.sha, n, '\n'); } }
    var front, back := "- `", "` ";
    assert '\n' !in front && '\n' !in back;
    assert Line(c, n) == front + Short(c.sha, n) + back + EscapeReleaseSubject(c.subject);
  }

  lemma LineTail(c: Commit, n: nat)
    ensures Line(c, n)[3..] == Short(c.sha, n) + ['`'] + ([' '] + EscapeReleaseSubject(c.subject))
  {
    var short, escaped, back := Short(c.sha, n), EscapeReleaseSubject(c.subject), "` ";
    assert Line(c, n) == "- `" + (short + back + escaped);
    assert back == ['`'] + [' '];
  }

  lemma LineInjective(a: Commit, m: nat, b: Commit, n: nat)
    requires Sha(a.sha) && Sha(b.sha) && Line(a, m) == Line(b, n)
    ensures Short(a.sha, m) == Short(b.sha, n) && a.subject == b.subject
  {
    LineTail(a, m);
    LineTail(b, n);
    var p, q := Short(a.sha, m), Short(b.sha, n);
    assert '`' !in p by { if '`' in p { ShortIsHex(a.sha, m, '`'); } }
    assert '`' !in q by { if '`' in q { ShortIsHex(b.sha, n, '`'); } }
    var x, y := [' '] + EscapeReleaseSubject(a.subject), [' '] + EscapeReleaseSubject(b.subject);
    FirstBreak(p, q, '`', x, y);
    assert EscapeReleaseSubject(a.subject) == x[1..] && EscapeReleaseSubject(b.subject) == y[1..];
    EscapeIsInjective(a.subject, b.subject);
  }

  /** Two texts agree only when every line shows the same abbreviation and the same subject. */
  lemma BodyInjective(a: seq<Commit>, m: nat, b: seq<Commit>, n: nat)
    requires Acceptable(a) && Acceptable(b) && Body(a, m) == Body(b, n)
    ensures |a| == |b|
    ensures forall i :: 0 <= i < |a| ==> Short(a[i].sha, m) == Short(b[i].sha, n) && a[i].subject == b[i].subject
  {
    assert Unlines(Lines(a, m)) == Body(a, m)[|HEADING|..] && Unlines(Lines(b, n)) == Body(b, n)[|HEADING|..];
    forall c, k | c in a || c in b
      ensures '\n' !in Line(c, k)
    {
      OneLine(c, k);
    }
    UnlinesInjective(Lines(a, m), Lines(b, n));
    forall i | 0 <= i < |a|
      ensures |a| == |b| && Short(a[i].sha, m) == Short(b[i].sha, n) && a[i].subject == b[i].subject
    {
      assert Lines(a, m)[i] == Lines(b, n)[i];
      LineInjective(a[i], m, b[i], n);
    }
    assert |Lines(a, m)| == |Lines(b, n)|;
  }
}
