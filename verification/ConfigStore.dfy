/** The configuration store at work: reading, writing and changing the file, and listing its sections. */
module ConfigStore {
  import opened Common
  import opened ConfigMap
  import opened ConfigSections
  import opened ConfigText

  // ------------------------------------------------------------- the reader

  /** What is not read yet of an open file. */
  class Reader {
    var rest: string

    constructor (text: string)
      ensures rest == text
    {
      rest := text;
    }

    method Get() returns (c: int)
      modifies this
      ensures old(rest) == "" ==> c == EOF && rest == ""
      ensures old(rest) != "" ==> IsChar(c) && old(rest) == [c as char] + rest
    {
      if rest == "" {
        return EOF;
      }
      c, rest := rest[0] as int, rest[1..];
    }

    /** A character that was read goes back to the front. */
    method Unget(c: int)
      requires c == EOF || IsChar(c)
      modifies this
      ensures rest == Back(c, old(rest))
    {
      if c != EOF {
        rest := [c as char] + rest;
      }
    }

    method ReadChar() returns (c: int)
      modifies this
      ensures (c, rest) == Next(old(rest))
    {
      c := Get();
      assert c != EOF ==> Back(c, rest)[1..] == rest;
      if c == '#' as int {
        ghost var line := rest;
        c := Get();
        while c != EOF && c != '\n' as int
          invariant c == EOF || IsChar(c)
          invariant (c == EOF ==> rest == "") && LineEnd(line) == LineEnd(Back(c, rest))
          decreases |Back(c, rest)|
        {
          assert Back(c, rest)[1..] == rest;
          c := Get();
        }
        assert c != EOF ==> Back(c, rest)[1..] == rest;
      }
    }

    /** A word, whose first character is read. */
    method ReadWord(first: int, room: nat, ghost text: string) returns (t: Token)
      requires IsAlnum(first) && room > 0 && Next(text) == (first, rest)
      modifies this
      ensures t == if |WordOf(text)| < room then Word(WordOf(text)) else Bad
      ensures t.Word? ==> rest == WordTail(text)
    {
      var buffer := "";
      var c := first;
      ghost var u := text;
      while InWord(c)
        invariant Next(u) == (c, rest) && |buffer| < room
        invariant Reading(text, buffer, u)
        decreases |u|
      {
        WordStep(text, buffer, u);
        if |buffer| == room - 1 {
          return Bad;
        }
        buffer, u := buffer + [c as char], u[1..];
        c := ReadChar();
      }
      WordStop(u);
      Unget(c);
      t := Word(buffer);
    }

    /** A string, whose opening quote is read. At the end of the file it fills up with what a character makes of that. */
    method ReadString(room: nat) returns (t: Token)
      requires room > 0
      modifies this
      ensures t == StringOf(old(rest), room).0
      ensures t.Quoted? ==> rest == StringOf(old(rest), room).1
    {
      var buffer := "";
      ghost var text, u := rest, rest;
      var c := Get();
      assert StringOf(text, room).0.Quoted? ==> "" + StringOf(text, room).0.text == StringOf(text, room).0.text;
      while c != '"' as int
        invariant (c == EOF && rest == "") || IsChar(c)
        invariant u == Back(c, rest)
        invariant |buffer| < room && StringOf(text, room) == Extend(buffer, StringOf(u, room - |buffer|))
        decreases room - |buffer|
      {
        if |buffer| == room - 1 || c == '\n' as int {
          return Bad;
        }
        StringStep(buffer, u, room);
        buffer := buffer + [if c == EOF then 0xFF as char else c as char];
        u := rest;
        c := Get();
      }
      t := Quoted(buffer);
    }

    method ReadToken(room: nat) returns (t: Token)
      modifies this
      ensures t == TokenOf(old(rest), room).0
      ensures !t.Bad? ==> rest == TokenOf(old(rest), room).1
    {
      ghost var text := rest;
      var c := ReadChar();
      while IsSpace(c)
        invariant Next(text) == (c, rest) && Skip(old(rest)) == Skip(text)
        decreases |text|
      {
        text := rest;
        c := ReadChar();
      }
      if IsAlnum(c) {
        if room == 0 {
          return Bad;
        }
        t := ReadWord(c, room, text);
      } else if c == '"' as int {
        if room == 0 {
          return Bad;
        }
        t := ReadString(room);
      } else {
        t := Symbol(c);
      }
    }
  }

  function WordTail(s: string): (r: string)
  {
    AfterWord(s[|WordOf(s)|..])
  }

  /** Of a word, some is read and some is still to come. */
  ghost predicate Reading(text: string, buffer: string, u: string)
  {
    WordOf(text) == buffer + WordOf(u) && WordTail(text) == WordTail(u)
  }

  lemma NextDirect(u: string)
    requires InWord(Next(u).0)
    ensures u != "" && u[0] != '#' && u[0] as int == Next(u).0 && Next(u).1 == u[1..]
  {
  }

  lemma WordCons(u: string)
    requires u != "" && InWord(u[0] as int) && u[0] != '#'
    ensures WordOf(u) == [u[0]] + WordOf(u[1..]) && WordTail(u) == WordTail(u[1..])
  {
    assert u[|WordOf(u)|..] == u[1..][|WordOf(u[1..])|..];
  }

  lemma WordStep(text: string, buffer: string, u: string)
    requires InWord(Next(u).0) && Reading(text, buffer, u)
    ensures u != "" && u[0] as int == Next(u).0 && Next(u).1 == u[1..]
    ensures Reading(text, buffer + [u[0]], u[1..]) && |WordOf(text)| > |buffer|
  {
    NextDirect(u);
    WordCons(u);
    Regroup(buffer, [u[0]], WordOf(u[1..]));
  }

  lemma WordStop(u: string)
    requires !InWord(Next(u).0)
    ensures WordOf(u) == "" && WordTail(u) == Back(Next(u).0, Next(u).1)
  {
    assert u[|WordOf(u)|..] == u;
  }

  /** More of a string behind what is already read of it. */
  function Extend(buffer: string, r: (Token, string)): (e: (Token, string))
  {
    if r.0.Quoted? then (Quoted(buffer + r.0.text), r.1) else (Bad, "")
  }

  lemma StringStep(buffer: string, u: string, room: nat)
    requires |buffer| < room - 1 && (u != "" ==> u[0] != '"' && u[0] != '\n')
    ensures u != "" ==> Extend(buffer, StringOf(u, room - |buffer|)) == Extend(buffer + [u[0]], StringOf(u[1..], room - |buffer| - 1))
    ensures u == "" ==> StringOf(u, room - |buffer|).0 == Bad
  {
    if u != "" {
      var (t, r) := StringOf(u[1..], room - |buffer| - 1);
      if t.Quoted? {
        assert buffer + ([u[0]] + t.text) == buffer + [u[0]] + t.text;
      }
    }
  }

  /** The text with a character in front of it again. */
  function Back(c: int, s: string): (r: string)
    requires c == EOF || IsChar(c)
  {
    if c == EOF then s else [c as char] + s
  }

  // ------------------------------------------------------------- the map

  /** The map without a key. */
  function Without(data: seq<Entry>, key: string): (r: seq<Entry>)
  {
    if data == [] then []
    else if data[0].key == key then Without(data[1..], key)
    else [data[0]] + Without(data[1..], key)
  }

  /** A key and all keys below it. */
  predicate Under(key: string, del: string)
  {
    del <= key && (|key| == |del| || key[|del|] == '\\')
  }

  function WithoutUnder(data: seq<Entry>, del: string): (r: seq<Entry>)
  {
    if data == [] then []
    else if Under(data[0].key, del) then WithoutUnder(data[1..], del)
    else [data[0]] + WithoutUnder(data[1..], del)
  }

  /** What is left are exactly the other entries, in order. */
  lemma {:induction false} WithoutUnderHolds(data: seq<Entry>, del: string)
    requires Sorted(data)
    ensures Sorted(WithoutUnder(data, del))
    ensures forall e :: e in WithoutUnder(data, del) <==> e in data && !Under(e.key, del)
  {
    if data != [] {
      var tail := data[1..];
      assert data == [data[0]] + tail;
      SortedTail(data);
      WithoutUnderHolds(tail, del);
      if !Under(data[0].key, del) {
        SortedCons(data[0], WithoutUnder(tail, del));
      }
    }
  }

  lemma {:induction false} WithoutHolds(data: seq<Entry>, key: string)
    requires Sorted(data)
    ensures Sorted(Without(data, key))
    ensures forall e :: e in Without(data, key) <==> e in data && e.key != key
  {
    if data != [] {
      var tail := data[1..];
      assert data == [data[0]] + tail;
      SortedTail(data);
      WithoutHolds(tail, key);
      if data[0].key != key {
        SortedCons(data[0], Without(tail, key));
      }
    }
  }

  lemma {:induction false} WithoutUnderErased(data: seq<Entry>, i: nat, del: string)
    requires i < |data| && Under(data[i].key, del)
    ensures WithoutUnder(data[..i] + data[i + 1..], del) == WithoutUnder(data, del)
  {
    if i == 0 {
      assert data[..0] + data[1..] == data[1..];
    } else {
      WithoutUnderErased(data[1..], i - 1, del);
      assert (data[..i] + data[i + 1..])[1..] == data[1..][..i - 1] + data[1..][i..];
    }
  }

  lemma {:induction false} NothingUnder(data: seq<Entry>, del: string)
    requires forall e :: e in data ==> !Under(e.key, del)
    ensures WithoutUnder(data, del) == data
  {
    if data != [] {
      assert data[0] in data;
      NothingUnder(data[1..], del);
      assert data == [data[0]] + data[1..];
    }
  }

  method FindValue(data: seq<Entry>, key: string) returns (value: seq<string>)
    ensures value == Find(data, key)
  {
    var i := 0;
    while i < |data|
      invariant i <= |data| && Find(data, key) == Find(data[i..], key)
    {
      if data[i].key == key {
        return [data[i].value];
      }
      assert data[i..][1..] == data[i + 1..];
      i := i + 1;
    }
    return [];
  }

  /** Deletes a key and all keys below it: after each the search starts again. */
  method EraseUnder(data: seq<Entry>, del: string) returns (left: seq<Entry>)
    ensures left == WithoutUnder(data, del)
  {
    left := data;
    var i := 0;
    while i < |left|
      invariant i <= |left| && WithoutUnder(left, del) == WithoutUnder(data, del)
      invariant forall e :: e in left[..i] ==> !Under(e.key, del)
      decreases |left|, |left| - i
    {
      var key := left[i].key;
      if |key| >= |del| && key[..|del|] == del && (|key| == |del| || key[|del|] == '\\') {
        WithoutUnderErased(left, i, del);
        left := left[..i] + left[i + 1..];
        i := 0;
      } else {
        assert left[..i + 1] == left[..i] + [left[i]];
        i := i + 1;
      }
    }
    assert left[..i] == left;
    NothingUnder(left, del);
  }

  /** The values in memory. */
  class Memory {
    var data: seq<Entry>

    constructor ()
      ensures data == []
    {
      data := [];
    }

    method GetValue(key: string) returns (value: seq<string>)
      ensures value == Find(data, key)
    {
      value := FindValue(data, key);
    }

    /** Sets a value or, without one, removes it; fails only if an existing one was to be created. */
    method SetValue(key: string, value: Option<string>, createOnly: bool) returns (ok: bool)
      modifies this
      ensures ok <==> value.None? || !createOnly || Find(old(data), key) == []
      ensures data == if value.None? then Without(old(data), key)
        else if ok then Put(old(data), key, value.value) else old(data)
    {
      ok := true;
      if value.Some? {
        if createOnly {
          var found := GetValue(key);
          ok := found == [];
        }
        if ok {
          data := Put(data, key, value.value);
        }
      } else {
        data := Without(data, key);
      }
    }

    method DeleteKey(del: string)
      modifies this
      ensures data == WithoutUnder(old(data), del)
    {
      data := EraseUnder(data, del);
    }

    /**
     The next section after an entry, counted from 1; 0 stands for the start. Comes back with the
     entry that starts the section, or with 0 when there is none.
     */
    method Enumerate(instance: nat, valueMax: nat) returns (ok: bool, next: nat, value: string)
      ensures instance > |data| ==> !ok && next == 0
      ensures instance <= |data| && NextSection(data, instance).None? ==> !ok && next == 0
      ensures instance <= |data| && NextSection(data, instance).Some? ==>
        var (at, section) := NextSection(data, instance).value;
        next == at && (ok <==> |section| < valueMax) && (ok ==> value == section)
    {
      var i, last := 0, "";
      if instance > 0 {
        if instance - 1 >= |data| {
          return false, 0, "";
        }
        last := Section(Cut(data[instance - 1].key));
        i := instance;
      }
      ghost var heads := HeadsOf(data);
      while i < |data|
        invariant i <= |data| && NextOther(heads, instance, last) == NextOther(heads, i, last)
      {
        assert heads[i] == if Plain(data[i].key) then None else Some(Head(data[i].key));
        if !Plain(data[i].key) {
          value := Head(data[i].key);
          if value != last {
            if |value| >= valueMax {
              return false, i + 1, "";
            }
            return true, i + 1, value;
          }
        }
        i := i + 1;
      }
      return false, 0, "";
    }
  }

  // ------------------------------------------------------------- listing the sections

  const MAX_HEAD := 64

  /** As much of a string as the buffer holds. */
  function Cut(s: string): (r: string)
    ensures r <= s && |r| <= MAX_HEAD
  {
    if |s| > MAX_HEAD then s[..MAX_HEAD] else s
  }

  /** The section of a key, as it is listed. */
  function Head(key: string): (r: string)
    ensures |r| <= MAX_HEAD
  {
    Cut(Section(key))
  }

  /** The sections of the keys, as they are listed. */
  function HeadsOf(data: seq<Entry>): (heads: seq<Option<string>>)
    ensures |heads| == |data|
    ensures forall i :: 0 <= i < |data| ==> heads[i] == if Plain(data[i].key) then None else Some(Head(data[i].key))
  {
    seq(|data|, i requires 0 <= i < |data| => if Plain(data[i].key) then None else Some(Head(data[i].key)))
  }

  /** The section that was listed last, as read off the entry it was found at. */
  function LastOf(data: seq<Entry>, instance: nat): (r: string)
    requires instance <= |data|
  {
    if instance == 0 then "" else Section(Cut(data[instance - 1].key))
  }

  /** The next section, and how far the search got, counted from 1. */
  function NextSection(data: seq<Entry>, instance: nat): (r: Option<(nat, string)>)
    requires instance <= |data|
    ensures r.Some? ==> instance < r.value.0 <= |data| && |r.value.1| <= MAX_HEAD
  {
    var heads := HeadsOf(data);
    var at := NextOther(heads, instance, LastOf(data, instance));
    if at < |data| && heads[at].Some? then Some((at + 1, heads[at].value)) else None
  }

  /** The search as a function of where it goes on. */
  function Search(data: seq<Entry>): (next: nat -> Option<(nat, string)>)
  {
    (i: nat) => if i <= |data| then NextSection(data, i) else None
  }

  /** What a caller gets who goes on until there is no more. */
  function Enumerated(data: seq<Entry>): (r: seq<string>)
  {
    Chain(Search(data), |data|, 0)
  }

  ghost predicate Searches(next: nat -> Option<(nat, string)>, data: seq<Entry>)
  {
    forall i: nat {:trigger NextSection(data, i)} :: i <= |data| ==> next(i) == NextSection(data, i)
  }

  /** One call of a caller that has room for every section. */
  method NextListed(m: Memory, instance: nat, ghost next: nat -> Option<(nat, string)>) returns (ok: bool, at: nat, value: string)
    requires instance <= |m.data| && Searches(next, m.data)
    ensures ok ==> instance < at <= |m.data|
    ensures Chain(next, |m.data|, instance) == if ok then [value] + Chain(next, |m.data|, at) else []
  {
    ok, at, value := m.Enumerate(instance, MAX_HEAD + 1);
    assert next(instance) == NextSection(m.data, instance);
  }

  /** The caller's loop. */
  method ListWith(m: Memory, ghost next: nat -> Option<(nat, string)>) returns (sections: seq<string>)
    requires Searches(next, m.data)
    ensures sections == Chain(next, |m.data|, 0)
  {
    sections := [];
    var instance, ok, value := 0, true, "";
    while ok
      invariant ok ==> instance <= |m.data| && Chain(next, |m.data|, 0) == sections + Chain(next, |m.data|, instance)
      invariant !ok ==> Chain(next, |m.data|, 0) == sections
      decreases ok, |m.data| - instance
    {
      var at;
      ok, at, value := NextListed(m, instance, next);
      if ok {
        assert sections + ([value] + Chain(next, |m.data|, at)) == sections + [value] + Chain(next, |m.data|, at);
        sections, instance := sections + [value], at;
      }
    }
  }

  method ListSections(m: Memory) returns (sections: seq<string>)
    ensures sections == Enumerated(m.data)
  {
    sections := ListWith(m, Search(m.data));
  }

  /** Sections short enough to be listed whole. */
  predicate ShortSections(data: seq<Entry>)
  {
    forall i :: 0 <= i < |data| ==> ShortSection(data[i])
  }

  predicate ShortSection(e: Entry)
  {
    !Plain(e.key) ==> |Section(e.key)| <= MAX_HEAD
  }

  /** The section is read off the key alike when it is found and when the search goes on from there. */
  lemma LastIsHead(key: string)
    requires !Plain(key) && |Section(key)| <= MAX_HEAD
    ensures Section(Cut(key)) == Section(key) == Head(key)
  {
    if |key| > MAX_HEAD {
      if |Section(key)| == MAX_HEAD {
        assert Cut(key) == Section(key);
        SectionOfPlain(Cut(key));
      } else {
        SectionSurvivesCut(key);
      }
    }
  }

  lemma SectionSurvivesCut(key: string)
    requires !Plain(key) && |Section(key)| < MAX_HEAD < |key|
    ensures Section(Cut(key)) == Section(key)
  {
    var s, c := Section(key), Cut(key);
    assert c[..|s|] == key[..|s|] == s && c[|s|] == key[|s|] == '\\';
    assert s + "\\" == c[..|s| + 1];
    SectionOfPrefix(s, c);
  }

  lemma SectionOfPlain(s: string)
    requires Plain(s)
    ensures Section(s) == s
  {
  }

  /** In the order of the map the sections lie next to one another, as they are listed too. */
  lemma HeadsContiguous(data: seq<Entry>)
    requires Sorted(data) && ShortSections(data)
    ensures Contiguous(HeadsOf(data))
  {
    var heads := HeadsOf(data);
    forall i, j, k | 0 <= i < j < k < |heads|
      ensures Between(heads, i, j, k)
    {
      if heads[i].Some? && heads[i] == heads[k] {
        assert ShortSection(data[i]) && ShortSection(data[k]) && ShortSection(data[j]);
        SectionsContiguous(data, i, j, k);
      }
    }
  }

  /** The section that the search remembers, as a function of where it goes on. */
  function Remembered(data: seq<Entry>): (remembered: nat -> string)
  {
    (i: nat) => if i <= |data| then LastOf(data, i) else ""
  }

  lemma SectionRemembered(data: seq<Entry>, i: nat)
    requires i < |data| && ShortSection(data[i])
    ensures Remembers(Remembered(data), HeadsOf(data), i)
  {
    if !Plain(data[i].key) {
      LastIsHead(data[i].key);
    }
  }

  lemma SearchFinds(data: seq<Entry>, next: nat -> Option<(nat, string)>, remembered: nat -> string, i: nat)
    requires i <= |data| && next(i) == NextSection(data, i) && remembered(i) == LastOf(data, i)
    ensures Finds(next, remembered, HeadsOf(data), i)
  {
  }

  lemma EnumeratedIsListed(data: seq<Entry>)
    requires ShortSections(data)
    ensures Enumerated(data) == Listed(HeadsOf(data), 0, "")
  {
    var next, remembered, heads := Search(data), Remembered(data), HeadsOf(data);
    forall i | 0 <= i < |heads|
      ensures Remembers(remembered, heads, i)
    {
      assert ShortSection(data[i]);
      SectionRemembered(data, i);
    }
    forall i: nat | i <= |heads|
      ensures Finds(next, remembered, heads, i)
    {
      SearchFinds(data, next, remembered, i);
    }
    ChainIsListed(next, remembered, heads, 0);
  }

  /** Some key belongs to the section. */
  ghost predicate HasSection(data: seq<Entry>, s: string)
  {
    exists e :: e in data && InSection(e, s)
  }

  predicate InSection(e: Entry, s: string)
  {
    !Plain(e.key) && Section(e.key) == s
  }

  /** All keys of one section come before all of the other. */
  ghost predicate KeysBefore(data: seq<Entry>, s: string, t: string)
  {
    forall e, f :: e in data && f in data && InSection(e, s) && InSection(f, t) ==> Less(e.key, f.key)
  }

  /** A key of the section without a name has a key of a named section before it. */
  ghost predicate NamedFirst(data: seq<Entry>)
  {
    exists i, j :: 0 <= i < j < |data| && Section(data[i].key) != "" && !Plain(data[i].key) && InSection(data[j], "")
  }

  /**
   From the start to the end every section is listed once, in the order of the map. A section without a name
   is listed exactly if a named one comes before it: its name is what stands for no section yet.
   */
  lemma SectionsListedOnce(data: seq<Entry>, s: string)
    requires Sorted(data) && ShortSections(data)
    ensures NoRepeats(Enumerated(data))
    ensures forall i, j :: 0 <= i < j < |Enumerated(data)| ==> KeysBefore(data, Enumerated(data)[i], Enumerated(data)[j])
    ensures s != "" ==> (s in Enumerated(data) <==> HasSection(data, s))
    ensures "" in Enumerated(data) <==> NamedFirst(data)
  {
    var heads := HeadsOf(data);
    EnumeratedIsListed(data);
    HeadsContiguous(data);
    ListedOnce(heads, "", s);
    SectionOccurs(data, s);
    NamelessOccurs(data);
    forall i, j | 0 <= i < j < |Enumerated(data)|
      ensures KeysBefore(data, Enumerated(data)[i], Enumerated(data)[j])
    {
      GroupsInOrder(data, Enumerated(data)[i], Enumerated(data)[j]);
    }
  }

  lemma GroupsInOrder(data: seq<Entry>, s: string, t: string)
    requires Sorted(data) && ShortSections(data) && Before(HeadsOf(data), s, t)
    ensures KeysBefore(data, s, t)
  {
    var heads := HeadsOf(data);
    forall e, f | e in data && f in data && InSection(e, s) && InSection(f, t)
      ensures Less(e.key, f.key)
    {
      var p :| 0 <= p < |data| && data[p] == e;
      var q :| 0 <= q < |data| && data[q] == f;
      assert ShortSection(data[p]) && ShortSection(data[q]);
      assert heads[p] == Some(s) && heads[q] == Some(t);
      assert Ordered(data, p, q);
    }
  }

  lemma SectionOccurs(data: seq<Entry>, s: string)
    requires ShortSections(data)
    ensures Occurs(HeadsOf(data), 0, s) <==> HasSection(data, s)
  {
    var heads := HeadsOf(data);
    if Occurs(heads, 0, s) {
      var k := WhereOccurs(heads, 0, s);
      assert ShortSection(data[k]) && data[k] in data && InSection(data[k], s);
    }
    if e :| e in data && InSection(e, s) {
      var k :| 0 <= k < |data| && data[k] == e;
      assert ShortSection(data[k]) && heads[k] == Some(s);
      OccursAt(heads, 0, k, s);
    }
  }

  lemma NamelessOccurs(data: seq<Entry>)
    requires ShortSections(data)
    ensures var n := NextOther(HeadsOf(data), 0, "");
      n < |data| && Occurs(HeadsOf(data), n + 1, "") <==> NamedFirst(data)
  {
    var n := NextOther(HeadsOf(data), 0, "");
    if n < |data| && Occurs(HeadsOf(data), n + 1, "") {
      NamelessIsBehind(data, n);
    }
    if NamedFirst(data) {
      BehindNamed(data, n);
    }
  }

  lemma NamelessIsBehind(data: seq<Entry>, n: nat)
    requires ShortSections(data) && n == NextOther(HeadsOf(data), 0, "") < |data| && Occurs(HeadsOf(data), n + 1, "")
    ensures NamedFirst(data)
  {
    var heads := HeadsOf(data);
    NextOtherIs(heads, 0, "");
    var k := WhereOccurs(heads, n + 1, "");
    assert ShortSection(data[n]) && ShortSection(data[k]);
    assert Section(data[n].key) != "" && InSection(data[k], "");
  }

  lemma BehindNamed(data: seq<Entry>, n: nat)
    requires ShortSections(data) && n == NextOther(HeadsOf(data), 0, "") && NamedFirst(data)
    ensures n < |data| && Occurs(HeadsOf(data), n + 1, "")
  {
    var heads := HeadsOf(data);
    NextOtherIs(heads, 0, "");
    var i, j :| 0 <= i < j < |data| && Section(data[i].key) != "" && !Plain(data[i].key) && InSection(data[j], "");
    assert ShortSection(data[i]) && ShortSection(data[j]);
    assert heads[i] == Some(Section(data[i].key)) && heads[j] == Some("");
    OccursAt(heads, n + 1, j, "");
  }

  /** A map whose one section has no name lists none. */
  lemma NamelessIsMissed(value: string)
    ensures var data := [Entry("\\key", value)];
      Sorted(data) && ShortSections(data) && HasSection(data, "") && Enumerated(data) == []
  {
    var data := [Entry("\\key", value)];
    assert "\\key"[0] == '\\';
    assert !Plain(data[0].key) && Section(data[0].key) == "";
    assert InSection(data[0], "") && ShortSection(data[0]);
    EnumeratedIsListed(data);
    NextOtherIs(HeadsOf(data), 0, "");
  }

  lemma {:induction false} OccursAt(heads: seq<Option<string>>, i: nat, k: nat, s: string)
    requires i <= k < |heads| && heads[k] == Some(s)
    ensures Occurs(heads, i, s)
    decreases k - i
  {
    if i < k {
      OccursAt(heads, i + 1, k, s);
    }
  }

  // ------------------------------------------------------------- the file

  /** The values in a file, with the comment lines that go at its top. */
  class File {
    var data: seq<Entry>
    var text: string
    const comments: seq<string>

    constructor (text: string, comments: seq<string>)
      ensures this.text == text && this.comments == comments && data == []
    {
      this.text, this.comments, data := text, comments, [];
    }

    /** Reads the file, up to the first thing that is not an entry or a section. */
    method LoadText()
      modifies this`data
      ensures data == Load(text, "", [])
    {
      var reader := new Reader(text);
      var prefix := "";
      data := [];
      var more := true;
      while more
        invariant |prefix| <= MAX_SECTION + 1
        invariant more ==> Load(text, "", []) == Load(reader.rest, prefix, data)
        invariant !more ==> Load(text, "", []) == data
        invariant fresh(reader)
        decreases more, |reader.rest|
      {
        ghost var before := reader.rest;
        var t := reader.ReadToken(KEY_SIZE - |prefix|);
        if t == Symbol('}' as int) && prefix != "" {
          prefix := "";
        } else {
          more := false;
          if t.Word? {
            var name := t.text;
            t := reader.ReadToken(0);
            if t == Symbol('{' as int) && prefix == "" {
              if |name| <= MAX_SECTION {
                prefix, more := name + "\\", true;
              }
            } else if t == Symbol('=' as int) {
              more := LoadEntry(reader, prefix, name);
            }
          }
        }
      }
    }

    /** The value of an entry and what ends it. */
    method LoadEntry(reader: Reader, prefix: string, name: string) returns (more: bool)
      requires |prefix| <= MAX_SECTION + 1
      modifies this`data, reader
      ensures more ==> |reader.rest| < |old(reader.rest)|
      ensures LoadValue(old(reader.rest), prefix, name, old(data)) == if more then Load(reader.rest, prefix, data) else data
    {
      var t := reader.ReadToken(VALUE_SIZE);
      more := false;
      if t.Word? || t.Quoted? {
        var value := CString(t.text);
        t := reader.ReadToken(0);
        if t == Symbol(';' as int) {
          data := Put(data, prefix + name, value);
          more := true;
        }
      }
    }

    /** Writes the file. */
    method StoreText()
      modifies this`text
      ensures text == Store(data, comments)
    {
      text := Comments(comments);
      var section := "";
      var i := 0;
      while i < |data|
        invariant i <= |data| && text + Print(data[i..], section) == Store(data, comments)
      {
        assert data[i..][0] == data[i] && data[i..][1..] == data[i + 1..];
        PrintStep(data[i..], section);
        Regroup(text, EntryText(data[i], section), Print(data[i + 1..], After(data[i], section)));
        var line;
        line, section := WriteEntry(data[i], section);
        text := text + line;
        i := i + 1;
      }
      assert data[i..] == [];
      if section != "" {
        text := text + "}\n";
      } else {
        assert text + Close(section) == text;
      }
    }

    /** One line of the file, with the end of the last section and the start of the next where they belong. */
    method WriteEntry(e: Entry, current: string) returns (line: string, section: string)
      ensures line == EntryText(e, current) && section == After(e, current)
    {
      line, section := "", current;
      if Plain(e.key) {
        line := Line(e.key, e.value);
      } else {
        var s := Section(e.key);
        if s != section {
          if section != "" {
            line := "}\n";
          }
          section := s;
          line := line + "\n" + section + " {\n";
        }
        line := line + ("\t" + Line(Name(e.key), e.value));
      }
    }

    /** What a program reads that opens the file now. */
    method GetValue(key: string) returns (value: seq<string>)
      modifies this`data
      ensures value == Find(Load(text, "", []), key)
    {
      LoadText();
      value := FindValue(data, key);
    }

    /** Reads the file, changes one value and writes it back; fails only if an existing one was to be created. */
    method SetValue(key: string, value: Option<string>, createOnly: bool) returns (ok: bool)
      modifies this
      ensures var was := Load(old(text), "", []);
        && (ok <==> value.None? || !createOnly || Find(was, key) == [])
        && data == (if value.None? then Without(was, key) else if ok then Put(was, key, value.value) else was)
        && text == if ok then Store(data, comments) else old(text)
    {
      LoadText();
      ok := true;
      if value.Some? {
        if createOnly {
          var found := FindValue(data, key);
          ok := found == [];
        }
        if ok {
          data := Put(data, key, value.value);
        }
      } else {
        data := Without(data, key);
      }
      if ok {
        StoreText();
      }
    }

    method DeleteKey(del: string)
      modifies this
      ensures data == WithoutUnder(Load(old(text), "", []), del) && text == Store(data, comments)
    {
      LoadText();
      data := EraseUnder(data, del);
      StoreText();
    }
  }

  /** An entry as it is written behind a section. */
  function EntryText(e: Entry, section: string): (r: string)
  {
    if Plain(e.key) then Line(e.key, e.value) else Start(section, Section(e.key)) + ("\t" + Line(Name(e.key), e.value))
  }

  /** The section in force behind an entry. */
  function After(e: Entry, section: string): (r: string)
  {
    if Plain(e.key) then section else Section(e.key)
  }

  lemma PrintStep(data: seq<Entry>, section: string)
    requires data != []
    ensures Print(data, section) == EntryText(data[0], section) + Print(data[1..], After(data[0], section))
  {
    if !Plain(data[0].key) {
      var s := Section(data[0].key);
      var line, rest := Line(Name(data[0].key), data[0].value), Print(data[1..], s);
      Regroup(Start(section, s), "\t" + line, rest);
      Regroup("\t", line, rest);
    }
  }

  /**
   A value set in the file is there for the next program that opens it, with all others as they were,
   exactly if the file can hold the key and the value. (Otherwise what is read back is not what was set.)
   */
  lemma SetSurvivesExactlyIfFits(text: string, key: string, value: string, comments: seq<string>)
    requires Lines(comments)
    ensures var now := Put(Load(text, "", []), key, value);
      Load(Store(now, comments), "", []) == now <==> KeyFits(key) && ValueFits(value)
  {
    var was := Load(text, "", []);
    LoadedFits(text, "", []);
    PutHolds(was, key, value);
    var now := Put(was, key, value);
    assert Entry(key, value) in now;
    RoundTripExactlyIfFits(now, comments);
  }

  /** What is left after a deletion always survives. */
  lemma DeletionSurvives(text: string, del: string, comments: seq<string>)
    requires Lines(comments)
    ensures var now := WithoutUnder(Load(text, "", []), del); Load(Store(now, comments), "", []) == now
  {
    var was := Load(text, "", []);
    LoadedFits(text, "", []);
    WithoutUnderHolds(was, del);
    RoundTripExactlyIfFits(WithoutUnder(was, del), comments);
  }
}
