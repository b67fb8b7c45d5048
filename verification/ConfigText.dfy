/** The text of a configuration file: how it is printed from the map, and how it is read back. */
module ConfigText {
  import opened ConfigMap

  const EOF := -1
  const KEY_SIZE := 64
  const VALUE_SIZE := 256
  const MAX_SECTION := 32

  // ------------------------------------------------------------- characters

  predicate IsChar(c: int)
  {
    0 <= c < 0xD800 || 0xE000 <= c < 0x11_0000
  }

  predicate IsSpace(c: int)
  {
    c == ' ' as int || 9 <= c <= 13
  }

  predicate IsAlnum(c: int)
  {
    '0' as int <= c <= '9' as int || 'A' as int <= c <= 'Z' as int || 'a' as int <= c <= 'z' as int
  }

  /** Characters that a word goes on with; a comment sign never gets that far. */
  predicate InWord(c: int)
  {
    IsAlnum(c) || c == '.' as int || c == '-' as int || c == '_' as int || c == '#' as int
  }

  predicate IsWord(w: string)
  {
    w != "" && IsAlnum(w[0] as int) && forall i :: 0 <= i < |w| ==> InWord(w[i] as int) && w[i] != '#'
  }

  lemma DigitsAre(c: char)
    ensures c in "0123456789" <==> 48 <= c as int < 58
  {
    var s := "0123456789";
    assert 48 <= c as int < 58 ==> s[c as int - 48] == c;
  }

  lemma CapitalsAre(c: char)
    ensures c in "ABCDEFGHIJKLMNOPQRSTUVWXYZ" <==> 65 <= c as int < 91
  {
    var s := "ABCDEFGHIJKLMNOPQRSTUVWXYZ";
    assert 65 <= c as int < 91 ==> s[c as int - 65] == c;
  }

  lemma SmallLettersAre(c: char)
    ensures c in "abcdefghijklmnopqrstuvwxyz" <==> 97 <= c as int < 123
  {
    var s := "abcdefghijklmnopqrstuvwxyz";
    assert 97 <= c as int < 123 ==> s[c as int - 97] == c;
  }

  /** The characters of words and blanks, one by one. */
  lemma CharactersAre(c: char)
    ensures IsAlnum(c as int) <==> c in "0123456789" || c in "ABCDEFGHIJKLMNOPQRSTUVWXYZ" || c in "abcdefghijklmnopqrstuvwxyz"
    ensures InWord(c as int) <==> IsAlnum(c as int) || c in ".-_#"
    ensures IsSpace(c as int) <==> c in " \t\n\r" || c as int == 11 || c as int == 12
  {
    DigitsAre(c);
    CapitalsAre(c);
    SmallLettersAre(c);
  }

  /** From the end of the line on. */
  function LineEnd(s: string): (r: string)
    ensures |r| <= |s|
    ensures r != "" ==> r[0] == '\n'
  {
    if s == "" || s[0] == '\n' then s else LineEnd(s[1..])
  }

  /** The next character outside a string, and what follows: a comment reads as the end of its line. */
  function Next(s: string): (r: (int, string))
    ensures |r.1| <= |s|
    ensures r.0 == EOF <==> r.0 < 0
    ensures r.0 == EOF ==> r.1 == ""
    ensures r.0 != EOF ==> IsChar(r.0)
    ensures r.0 != EOF ==> |r.1| < |s|
    ensures r.0 != '#' as int
  {
    if s == "" then (EOF, "")
    else if s[0] != '#' then (s[0] as int, s[1..])
    else
      var e := LineEnd(s[1..]);
      if e == "" then (EOF, "") else ('\n' as int, e[1..])
  }

  /** The text from its next significant character on. */
  function Skip(s: string): (r: string)
    ensures |r| <= |s|
    ensures !IsSpace(Next(r).0)
    decreases |s|
  {
    if IsSpace(Next(s).0) then Skip(Next(s).1) else s
  }

  // ------------------------------------------------------------- tokens

  datatype Token = Bad | Word(text: string) | Quoted(text: string) | Symbol(c: int)

  /** The word at the start of the text. */
  function WordOf(s: string): (w: string)
    ensures w <= s
  {
    if s != "" && InWord(s[0] as int) && s[0] != '#' then
      var w := WordOf(s[1..]);
      assert s == [s[0]] + s[1..] && s[1..][..|w|] == w;
      [s[0]] + w
    else ""
  }

  /** What follows a word: of a comment straight after it only the end of the line is left. */
  function AfterWord(s: string): (r: string)
    ensures |r| <= |s|
  {
    if s != "" && s[0] == '#' then LineEnd(s[1..]) else s
  }

  /** A string up to its closing quote, of fewer than `room` characters and without a line end. */
  function StringOf(s: string, room: nat): (r: (Token, string))
    ensures |r.1| <= |s|
    ensures r == (Bad, "") || r.0.Quoted?
    ensures r.0.Quoted? ==> |r.0.text| < room && '\n' !in r.0.text && '"' !in r.0.text
  {
    if room == 0 || s == "" then (Bad, "")
    else if s[0] == '"' then (Quoted(""), s[1..])
    else if room == 1 || s[0] == '\n' then (Bad, "")
    else
      var (t, rest) := StringOf(s[1..], room - 1);
      if t.Bad? then (Bad, "") else (Quoted([s[0]] + t.text), rest)
  }

  /** The next token; with room 0 there is nowhere to put a word or a string. */
  function TokenOf(s: string, room: nat): (r: (Token, string))
    ensures |r.1| <= |s|
    ensures r.0.Word? ==> IsWord(r.0.text) && |r.0.text| < room && |r.1| < |s|
    ensures r.0.Quoted? ==> |r.0.text| < room && '\n' !in r.0.text && '"' !in r.0.text && |r.1| < |s|
    ensures r.0.Symbol? && r.0.c != EOF ==> |r.1| < |s|
  {
    var t := Skip(s);
    var (c, rest) := Next(t);
    if IsAlnum(c) then
      var w := WordOf(t);
      WordIsWord(t);
      if room == 0 || |w| >= room then (Bad, "") else (Word(w), AfterWord(t[|w|..]))
    else if c == '"' as int then (if room == 0 then (Bad, "") else StringOf(rest, room))
    else (Symbol(c), rest)
  }

  lemma {:induction false} WordChars(s: string)
    ensures forall i :: 0 <= i < |WordOf(s)| ==> InWord(WordOf(s)[i] as int) && WordOf(s)[i] != '#'
  {
    if s != "" && InWord(s[0] as int) && s[0] != '#' {
      WordChars(s[1..]);
    }
  }

  lemma WordIsWord(s: string)
    requires IsAlnum(Next(s).0)
    ensures IsWord(WordOf(s))
  {
    WordChars(s);
  }

  // ------------------------------------------------------------- reading the file

  /** A C string ends at its first NUL. */
  function CString(s: string): (r: string)
    ensures r <= s && '\0' !in r && (r == s || s[|r|] == '\0')
    ensures '\0' !in s ==> r == s
  {
    if s == "" || s[0] == '\0' then "" else
      var r := CString(s[1..]);
      assert s == [s[0]] + s[1..] && s[1..][..|r|] == r;
      [s[0]] + r
  }

  /** The entries read from the text behind a section's name: the reading stops at the first thing it does not know. */
  function Load(s: string, prefix: string, data: seq<Entry>): (r: seq<Entry>)
    requires |prefix| <= MAX_SECTION + 1
    decreases |s|, 1
  {
    var (t1, s1) := TokenOf(s, KEY_SIZE - |prefix|);
    if t1 == Symbol('}' as int) && prefix != "" then Load(s1, "", data)
    else if !t1.Word? then data
    else
      var (t2, s2) := TokenOf(s1, 0);
      if t2 == Symbol('{' as int) && prefix == "" then
        if |t1.text| > MAX_SECTION then data else Load(s2, t1.text + "\\", data)
      else if t2 != Symbol('=' as int) then data
      else LoadValue(s2, prefix, t1.text, data)
  }

  /** One value more, if it follows; otherwise the reading stops here. */
  function LoadValue(s: string, prefix: string, name: string, data: seq<Entry>): (r: seq<Entry>)
    requires |prefix| <= MAX_SECTION + 1
    decreases |s|, 0
  {
    var (t3, s3) := TokenOf(s, VALUE_SIZE);
    var (t4, s4) := TokenOf(s3, 0);
    if (t3.Word? || t3.Quoted?) && t4 == Symbol(';' as int) then
      Load(s4, prefix, Put(data, prefix + name, CString(t3.text)))
    else data
  }

  // ------------------------------------------------------------- printing the file

  function Line(name: string, value: string): (r: string)
  {
    name + " = \"" + value + "\";\n"
  }

  function Close(section: string): (r: string)
  {
    if section != "" then "}\n" else ""
  }

  /** Where the section changes. */
  function Start(section: string, s: string): (r: string)
  {
    if s != section then Close(section) + "\n" + s + " {\n" else ""
  }

  /** The entries in order, grouped by section. */
  function Print(data: seq<Entry>, section: string): (r: string)
  {
    if data == [] then Close(section)
    else if Plain(data[0].key) then Line(data[0].key, data[0].value) + Print(data[1..], section)
    else
      var s := Section(data[0].key);
      Start(section, s) + ("\t" + (Line(Name(data[0].key), data[0].value) + Print(data[1..], s)))
  }

  /** Comment lines: the name of the file and what the program says about it. */
  function Comments(lines: seq<string>): (r: string)
  {
    if lines == [] then "\n" else "#" + lines[0] + "\n" + Comments(lines[1..])
  }

  function Store(data: seq<Entry>, comments: seq<string>): (r: string)
  {
    Comments(comments) + Print(data, "")
  }

  /** A small file, as it looks: comments, a plain key, and a section. */
  lemma PrintedText()
    ensures Store([Entry("a", "1"), Entry("s\\k", "2")], ["x"]) == "#x\n" + "\n" + ("a = \"1\";\n" + ("\ns {\n" + ("\t" + ("k = \"2\";\n" + "}\n"))))
  {
    var e0, e1 := Entry("a", "1"), Entry("s\\k", "2");
    PrintFirst(e0, [e1], "");
    PrintedSection(e1);
    assert [e0] + [e1] == [e0, e1];
    CommentFirst("x");
    LinesLook();
  }

  lemma PrintedSection(e: Entry)
    requires e == Entry("s\\k", "2")
    ensures Print([e], "") == "\ns {\n" + ("\t" + ("k = \"2\";\n" + "}\n"))
  {
    assert "s" + "\\" + "k" == "s\\k";
    SectionOfJoined("s", "k");
    PrintFirst(e, [], "");
    assert [e] + [] == [e];
    LinesLook();
  }

  lemma LinesLook()
    ensures Line("a", "1") == "a = \"1\";\n" && Line("k", "2") == "k = \"2\";\n"
    ensures Start("", "s") == "\ns {\n" && "#" + "x" + "\n" == "#x\n" && Close("s") == "}\n"
  {
  }

  lemma PrintFirst(e: Entry, rest: seq<Entry>, section: string)
    ensures Print([e] + rest, section) ==
      if Plain(e.key) then Line(e.key, e.value) + Print(rest, section)
      else Start(section, Section(e.key)) + ("\t" + (Line(Name(e.key), e.value) + Print(rest, Section(e.key))))
  {
    assert ([e] + rest)[1..] == rest;
  }

  lemma CommentFirst(line: string)
    ensures Comments([line]) == "#" + line + "\n" + "\n"
  {
    assert [line][1..] == [];
  }

  // ------------------------------------------------------------- what a file can hold

  /** A name of at most 32 characters for a section, names made of words, and values a quoted string can hold. */
  predicate KeyFits(key: string)
  {
    && |key| < KEY_SIZE
    && if Plain(key) then IsWord(key) else IsWord(Section(key)) && |Section(key)| <= MAX_SECTION && IsWord(Name(key))
  }

  predicate ValueFits(value: string)
  {
    |value| < VALUE_SIZE && '\n' !in value && '"' !in value && '\0' !in value
  }

  predicate Fits(data: seq<Entry>)
  {
    forall e :: e in data ==> KeyFits(e.key) && ValueFits(e.value)
  }

  function Prefix(section: string): (p: string)
  {
    if section != "" then section + "\\" else ""
  }

  predicate SectionFits(section: string)
  {
    section != "" ==> IsWord(section) && |section| <= MAX_SECTION
  }

  /** Whatever the text, what is read from it fits. */
  lemma {:induction false} LoadedFits(s: string, section: string, data: seq<Entry>)
    requires Sorted(data) && Fits(data) && SectionFits(section)
    ensures Sorted(Load(s, Prefix(section), data)) && Fits(Load(s, Prefix(section), data))
    decreases |s|, 1
  {
    var prefix := Prefix(section);
    var (t1, s1) := TokenOf(s, KEY_SIZE - |prefix|);
    if t1 == Symbol('}' as int) && prefix != "" {
      LoadedFits(s1, "", data);
    } else if t1.Word? {
      var (t2, s2) := TokenOf(s1, 0);
      if t2 == Symbol('{' as int) && prefix == "" {
        if |t1.text| <= MAX_SECTION {
          LoadedFits(s2, t1.text, data);
        }
      } else if t2 == Symbol('=' as int) {
        LoadedValueFits(s2, section, t1.text, data);
      }
    }
  }

  lemma {:induction false} LoadedValueFits(s: string, section: string, name: string, data: seq<Entry>)
    requires Sorted(data) && Fits(data) && SectionFits(section)
    requires IsWord(name) && |name| < KEY_SIZE - |Prefix(section)|
    ensures Sorted(LoadValue(s, Prefix(section), name, data)) && Fits(LoadValue(s, Prefix(section), name, data))
    decreases |s|, 0
  {
    var (t3, s3) := TokenOf(s, VALUE_SIZE);
    var (t4, s4) := TokenOf(s3, 0);
    if (t3.Word? || t3.Quoted?) && t4 == Symbol(';' as int) {
      JoinedFits(section, name);
      WordValueFits(t3.text);
      PutHolds(data, Prefix(section) + name, CString(t3.text));
      LoadedFits(s4, section, Put(data, Prefix(section) + name, CString(t3.text)));
    }
  }

  lemma WordHasNoBackslash(w: string)
    requires IsWord(w)
    ensures '\\' !in w && '\n' !in w && '"' !in w
  {
  }

  lemma JoinedFits(section: string, w: string)
    requires IsWord(w) && SectionFits(section) && |w| < KEY_SIZE - |Prefix(section)|
    ensures KeyFits(Prefix(section) + w)
  {
    WordHasNoBackslash(w);
    if section != "" {
      WordHasNoBackslash(section);
      SectionOfJoined(section, w);
    } else {
      assert "" + w == w;
    }
  }

  lemma WordValueFits(v: string)
    requires |v| < VALUE_SIZE && (IsWord(v) || ('\n' !in v && '"' !in v))
    ensures ValueFits(CString(v))
  {
    if IsWord(v) {
      WordHasNoBackslash(v);
    }
  }

  // ------------------------------------------------------------- reading back what was printed

  lemma SkipSpace(c: char, s: string)
    requires IsSpace(c as int)
    ensures Skip([c] + s) == Skip(s)
  {
    assert Next([c] + s) == (c as int, s) by {
      assert ([c] + s)[1..] == s;
    }
  }

  lemma {:induction false} LineEndFound(line: string, s: string)
    requires '\n' !in line
    ensures LineEnd(line + "\n" + s) == "\n" + s
  {
    if line == "" {
      assert line + "\n" + s == "\n" + s;
    } else {
      assert (line + "\n" + s)[1..] == line[1..] + "\n" + s;
      LineEndFound(line[1..], s);
    }
  }

  lemma SkipComment(line: string, s: string)
    requires '\n' !in line
    ensures Skip("#" + line + "\n" + s) == Skip(s)
  {
    var t := "#" + line + "\n" + s;
    assert t[1..] == line + "\n" + s;
    LineEndFound(line, s);
    assert ("\n" + s)[1..] == s;
    assert Next(t) == ('\n' as int, s);
  }

  /** Reading depends only on what comes after blanks and comments. */
  lemma LoadSkips(a: string, b: string, prefix: string, data: seq<Entry>)
    requires Skip(a) == Skip(b) && |prefix| <= MAX_SECTION + 1
    ensures Load(a, prefix, data) == Load(b, prefix, data)
  {
    assert TokenOf(a, KEY_SIZE - |prefix|) == TokenOf(b, KEY_SIZE - |prefix|);
  }

  lemma {:induction false} WordFound(w: string, s: string)
    requires forall i :: 0 <= i < |w| ==> InWord(w[i] as int) && w[i] != '#'
    requires s != "" && !InWord(s[0] as int)
    ensures WordOf(w + s) == w
  {
    if w == "" {
      assert w + s == s;
    } else {
      assert (w + s)[1..] == w[1..] + s;
      WordFound(w[1..], s);
    }
  }

  lemma WordToken(w: string, s: string, room: nat)
    requires IsWord(w) && |w| < room && s != "" && !InWord(s[0] as int)
    ensures TokenOf(w + s, room) == (Word(w), s)
  {
    var t := w + s;
    assert Next(t) == (w[0] as int, t[1..]);
    WordFound(w, s);
    assert t[|w|..] == s;
  }

  lemma SymbolToken(c: char, s: string, room: nat)
    requires !IsSpace(c as int) && !IsAlnum(c as int) && c != '"' && c != '#'
    ensures TokenOf([c] + s, room) == (Symbol(c as int), s)
  {
    assert ([c] + s)[1..] == s;
    assert Next([c] + s) == (c as int, s);
  }

  lemma {:induction false} StringFound(v: string, s: string, room: nat)
    requires |v| < room && '\n' !in v && '"' !in v
    ensures StringOf(v + "\"" + s, room) == (Quoted(v), s)
  {
    var t := v + "\"" + s;
    if v == "" {
      assert t[1..] == s;
    } else {
      assert t[1..] == v[1..] + "\"" + s && t[0] == v[0];
      StringFound(v[1..], s, room - 1);
      assert v == [v[0]] + v[1..];
    }
  }

  lemma StringToken(v: string, s: string)
    requires ValueFits(v)
    ensures TokenOf("\"" + v + "\"" + s, VALUE_SIZE) == (Quoted(v), s)
  {
    var t := "\"" + v + "\"" + s;
    assert t[1..] == v + "\"" + s;
    assert Next(t) == ('"' as int, t[1..]);
    StringFound(v, s, VALUE_SIZE);
  }

  lemma BlankToken(c: char, s: string, room: nat)
    requires IsSpace(c as int)
    ensures TokenOf([c] + s, room) == TokenOf(s, room)
  {
    SkipSpace(c, s);
  }

  lemma BlankSymbolToken(b: char, c: char, s: string)
    requires IsSpace(b as int) && !IsSpace(c as int) && !IsAlnum(c as int) && c != '"' && c != '#'
    ensures TokenOf([b] + ([c] + s), 0) == (Symbol(c as int), s)
  {
    BlankToken(b, [c] + s, 0);
    SymbolToken(c, s, 0);
  }

  /** The value of a printed line, and its end. */
  lemma ValueLoads(name: string, value: string, s: string, prefix: string, data: seq<Entry>)
    requires |prefix| <= MAX_SECTION + 1 && ValueFits(value)
    ensures LoadValue([' '] + ("\"" + value + "\"" + ([';'] + (['\n'] + s))), prefix, name, data)
      == Load(s, prefix, Put(data, prefix + name, value))
  {
    var s4 := ['\n'] + s;
    BlankToken(' ', "\"" + value + "\"" + ([';'] + s4), VALUE_SIZE);
    StringToken(value, [';'] + s4);
    SymbolToken(';', s4, 0);
    SkipSpace('\n', s);
    LoadSkips(s4, s, prefix, Put(data, prefix + name, value));
  }

  /** A printed line reads as one assignment. */
  lemma LineLoads(name: string, value: string, s: string, prefix: string, data: seq<Entry>)
    requires IsWord(name) && |prefix| <= MAX_SECTION + 1 && |name| < KEY_SIZE - |prefix| && ValueFits(value)
    ensures Load(Line(name, value) + s, prefix, data) == Load(s, prefix, Put(data, prefix + name, value))
  {
    var s2 := [' '] + ("\"" + value + "\"" + ([';'] + (['\n'] + s)));
    var s1 := [' '] + (['='] + s2);
    LineParts(name, value, s);
    WordToken(name, s1, KEY_SIZE - |prefix|);
    BlankSymbolToken(' ', '=', s2);
    ValueLoads(name, value, s, prefix, data);
  }

  /** A value need not be quoted if it is a word, and reads the same as in quotes. */
  lemma UnquotedLoads(name: string, value: string, s: string, prefix: string, data: seq<Entry>)
    requires IsWord(name) && |prefix| <= MAX_SECTION + 1 && |name| < KEY_SIZE - |prefix| && IsWord(value) && |value| < VALUE_SIZE
    ensures Load(name + ([' '] + (['='] + ([' '] + (value + ([';'] + s))))), prefix, data) == Load(Line(name, value) + s, prefix, data)
  {
    var s2 := [' '] + (value + ([';'] + s));
    WordHasNoBackslash(value);
    NoNul(value);
    WordToken(name, [' '] + (['='] + s2), KEY_SIZE - |prefix|);
    BlankSymbolToken(' ', '=', s2);
    UnquotedValueLoads(name, value, s, prefix, data);
    LineLoads(name, value, s, prefix, data);
  }

  lemma UnquotedValueLoads(name: string, value: string, s: string, prefix: string, data: seq<Entry>)
    requires |prefix| <= MAX_SECTION + 1 && IsWord(value) && |value| < VALUE_SIZE && '\0' !in value
    ensures LoadValue([' '] + (value + ([';'] + s)), prefix, name, data) == Load(s, prefix, Put(data, prefix + name, value))
  {
    BlankToken(' ', value + ([';'] + s), VALUE_SIZE);
    WordToken(value, [';'] + s, VALUE_SIZE);
    SymbolToken(';', s, 0);
  }

  lemma NoNul(w: string)
    requires IsWord(w)
    ensures '\0' !in w
  {
  }

  lemma LineParts(name: string, value: string, s: string)
    ensures Line(name, value) + s == name + ([' '] + (['='] + ([' '] + ("\"" + value + "\"" + ([';'] + (['\n'] + s))))))
  {
  }

  lemma HeaderParts(section: string, s: string)
    ensures "\n" + section + " {\n" + "\t" + s == ['\n'] + (section + ([' '] + (['{'] + (['\n'] + (['\t'] + s)))))
  {
  }

  /** A printed section header reads as the section's prefix. */
  lemma HeaderLoads(section: string, s: string, data: seq<Entry>)
    requires IsWord(section) && |section| <= MAX_SECTION
    ensures Load("\n" + section + " {\n" + "\t" + s, "", data) == Load(s, section + "\\", data)
  {
    var s2 := ['\n'] + (['\t'] + s);
    var s1 := [' '] + (['{'] + s2);
    HeaderParts(section, s);
    BlankToken('\n', section + s1, KEY_SIZE);
    WordToken(section, s1, KEY_SIZE);
    BlankSymbolToken(' ', '{', s2);
    SkipSpace('\n', ['\t'] + s);
    SkipSpace('\t', s);
    LoadSkips(s2, s, section + "\\", data);
  }

  /** A printed end of a section leaves it. */
  lemma CloseLoads(section: string, s: string, data: seq<Entry>)
    requires SectionFits(section)
    ensures Load(Close(section) + s, Prefix(section), data) == Load(s, "", data)
  {
    if section == "" {
      assert Close(section) + s == s;
    } else {
      assert Close(section) + s == ['}'] + (['\n'] + s);
      SymbolToken('}', ['\n'] + s, KEY_SIZE - |Prefix(section)|);
      SkipSpace('\n', s);
      LoadSkips(['\n'] + s, s, "", data);
    }
  }

  lemma FittingParts(key: string)
    requires KeyFits(key)
    ensures Plain(key) ==> IsWord(key) && |key| < KEY_SIZE
    ensures !Plain(key) ==> SectionFits(Section(key)) && Section(key) != "" && IsWord(Name(key))
    ensures !Plain(key) ==> |Name(key)| < KEY_SIZE - |Prefix(Section(key))| && Prefix(Section(key)) + Name(key) == key
  {
  }

  /** The entries from i on, printed and read back behind those before. */
  lemma {:induction false} PrintLoads(data: seq<Entry>, i: nat, section: string)
    requires Sorted(data) && Fits(data) && i <= |data| && SectionFits(section)
    requires section != "" ==> i > 0 && !Plain(data[i - 1].key)
    ensures Load(Print(data[i..], section), Prefix(section), data[..i]) == data
    decreases |data| - i
  {
    if i == |data| {
      assert data[..i] == data;
      assert Close(section) + "" == Close(section);
      CloseLoads(section, "", data);
      EndLoads(data);
    } else {
      var e := data[i];
      assert e in data && data[i..][0] == e && data[i..][1..] == data[i + 1..];
      FittingParts(e.key);
      PutNext(data, i);
      if Plain(e.key) {
        assert i > 0 ==> Ordered(data, i - 1, i);
        assert section == "";
        LineLoads(e.key, e.value, Print(data[i + 1..], section), "", data[..i]);
        assert "" + e.key == e.key;
        PrintLoads(data, i + 1, section);
      } else {
        var s := Section(e.key);
        var rest := Print(data[i + 1..], s);
        EntryLoads(e, section, rest, data[..i]);
        PrintLoads(data, i + 1, s);
      }
    }
  }

  lemma EndLoads(data: seq<Entry>)
    ensures Load("", "", data) == data
  {
  }

  /** The next entry of a sorted map goes behind those before it. */
  lemma PutNext(data: seq<Entry>, i: nat)
    requires Sorted(data) && i < |data|
    ensures Put(data[..i], data[i].key, data[i].value) == data[..i + 1]
  {
    forall e | e in data[..i]
      ensures Less(e.key, data[i].key)
    {
      var k :| 0 <= k < i && data[k] == e;
      assert Ordered(data, k, i);
    }
    PutLast(data[..i], data[i].key, data[i].value);
    assert data[..i + 1] == data[..i] + [data[i]];
  }

  /** The start of a section, where there is one, reads as the section's prefix. */
  lemma StartLoads(section: string, s: string, rest: string, data: seq<Entry>)
    requires IsWord(s) && SectionFits(s) && SectionFits(section)
    ensures Load(Start(section, s) + ("\t" + rest), Prefix(section), data) == Load(rest, Prefix(s), data)
  {
    if s == section {
      assert Start(section, s) + ("\t" + rest) == ['\t'] + rest;
      SkipSpace('\t', rest);
      LoadSkips(['\t'] + rest, rest, Prefix(section), data);
    } else {
      var header := "\n" + s + " {\n" + "\t" + rest;
      assert Start(section, s) + ("\t" + rest) == Close(section) + header;
      CloseLoads(section, header, data);
      HeaderLoads(s, rest, data);
    }
  }

  /** An entry of a section, with the section's start before it unless it is the one in force. */
  lemma EntryLoads(e: Entry, section: string, rest: string, data: seq<Entry>)
    requires KeyFits(e.key) && ValueFits(e.value) && !Plain(e.key) && SectionFits(section)
    ensures var s := Section(e.key);
      Load(Start(section, s) + ("\t" + (Line(Name(e.key), e.value) + rest)), Prefix(section), data)
      == Load(rest, Prefix(s), Put(data, e.key, e.value))
  {
    FittingParts(e.key);
    var s, line := Section(e.key), Line(Name(e.key), e.value);
    LineLoads(Name(e.key), e.value, rest, Prefix(s), data);
    StartLoads(section, s, line + rest, data);
  }

  predicate Lines(comments: seq<string>)
  {
    forall c :: c in comments ==> '\n' !in c
  }

  lemma {:induction false} CommentsSkip(comments: seq<string>, s: string)
    requires Lines(comments)
    ensures Skip(Comments(comments) + s) == Skip(s)
  {
    if comments == [] {
      assert Comments(comments) + s == ['\n'] + s;
      SkipSpace('\n', s);
    } else {
      var rest := Comments(comments[1..]) + s;
      assert Comments(comments) + s == "#" + comments[0] + "\n" + rest;
      SkipComment(comments[0], rest);
      CommentsSkip(comments[1..], s);
    }
  }

  /**
   The text stored for a map reads back as the same map exactly if the map is one a file can hold. Read
   text of any kind gives such a map, so every map that was loaded survives being stored.
   */
  lemma RoundTripExactlyIfFits(data: seq<Entry>, comments: seq<string>)
    requires Sorted(data) && Lines(comments)
    ensures Load(Store(data, comments), "", []) == data <==> Fits(data)
  {
    LoadedFits(Store(data, comments), "", []);
    if Fits(data) {
      CommentsSkip(comments, Print(data, ""));
      LoadSkips(Store(data, comments), Print(data, ""), "", []);
      PrintLoads(data, 0, "");
      assert data[0..] == data && data[..0] == [];
    }
  }

  lemma StoredAgain(text: string, comments: seq<string>)
    requires Lines(comments)
    ensures var data := Load(text, "", []); Load(Store(data, comments), "", []) == data
  {
    LoadedFits(text, "", []);
    RoundTripExactlyIfFits(Load(text, "", []), comments);
  }
}
