/**
 The map of configuration values: keys in the order that the configuration file depends on, plain keys
 first and the keys of a section next to one another.
 */
module ConfigMap {

  datatype Entry = Entry(key: string, value: string)

  /** Comparison of C strings. */
  predicate Lex(a: string, b: string)
  {
    b != "" && (a == "" || a[0] < b[0] || (a[0] == b[0] && Lex(a[1..], b[1..])))
  }

  predicate Plain(key: string)
  {
    '\\' !in key
  }

  /** The order of keys: those without a section first, otherwise character by character. */
  predicate Less(a: string, b: string)
  {
    if Plain(a) != Plain(b) then Plain(a) else Lex(a, b)
  }

  lemma {:induction false} LexTrichotomy(a: string, b: string)
    ensures Lex(a, b) || Lex(b, a) || a == b
    ensures !(Lex(a, b) && Lex(b, a)) && !Lex(a, a)
  {
    if a != "" {
      LexTrichotomy(a[1..], if b != "" then b[1..] else "");
      if b != "" {
        assert a == [a[0]] + a[1..] && b == [b[0]] + b[1..];
      }
    }
  }

  lemma {:induction false} LexTransitive(a: string, b: string, c: string)
    requires Lex(a, b) && Lex(b, c)
    ensures Lex(a, c)
  {
    if a != "" && a[0] == b[0] == c[0] {
      LexTransitive(a[1..], b[1..], c[1..]);
    }
  }

  /** Strings are compared by the first character in which they differ, and a string comes before what it begins. */
  lemma {:induction false} LexByFirstDifference(a: string, c: char, s: string, d: char, t: string)
    requires c != d
    ensures Lex(a + ([c] + s), a + ([d] + t)) <==> c < d
    ensures Lex(a, a + ([c] + s)) && !Lex(a + ([c] + s), a)
  {
    if a == "" {
      assert a + ([c] + s) == [c] + s && a + ([d] + t) == [d] + t;
    } else {
      assert (a + ([c] + s))[1..] == a[1..] + ([c] + s) && (a + ([d] + t))[1..] == a[1..] + ([d] + t);
      LexByFirstDifference(a[1..], c, s, d, t);
    }
  }

  /** It is a strict total order. */
  lemma LessOrder(a: string, b: string, c: string)
    ensures Less(a, b) || Less(b, a) || a == b
    ensures !(Less(a, b) && Less(b, a)) && !Less(a, a)
    ensures Less(a, b) && Less(b, c) ==> Less(a, c)
  {
    LexTrichotomy(a, b);
    LexTrichotomy(a, a);
    if Lex(a, b) && Lex(b, c) {
      LexTransitive(a, b, c);
    }
  }

  predicate Sorted(data: seq<Entry>)
  {
    forall i, j :: 0 <= i < j < |data| ==> Ordered(data, i, j)
  }

  predicate Ordered(data: seq<Entry>, i: nat, j: nat)
    requires i < j < |data|
  {
    Less(data[i].key, data[j].key)
  }

  lemma SortedTail(data: seq<Entry>)
    requires Sorted(data) && data != []
    ensures Sorted(data[1..]) && forall e :: e in data[1..] ==> Less(data[0].key, e.key)
  {
    var tail := data[1..];
    forall i, j | 0 <= i < j < |tail|
      ensures Ordered(tail, i, j)
    {
      assert Ordered(data, i + 1, j + 1);
    }
    forall e | e in tail
      ensures Less(data[0].key, e.key)
    {
      var i :| 0 <= i < |tail| && tail[i] == e;
      assert Ordered(data, 0, i + 1);
    }
  }

  function Find(data: seq<Entry>, key: string): (r: seq<string>)
  {
    if data == [] then []
    else if data[0].key == key then [data[0].value]
    else Find(data[1..], key)
  }

  /** Assignment to a key: a new entry in its place, or a new value for the old one. */
  function Put(data: seq<Entry>, key: string, value: string): (r: seq<Entry>)
  {
    if data == [] || Less(key, data[0].key) then [Entry(key, value)] + data
    else if data[0].key == key then [Entry(key, value)] + data[1..]
    else [data[0]] + Put(data[1..], key, value)
  }

  /** What the map holds after an assignment: the new entry, and every other entry as it was, in order. */
  lemma {:induction false} PutHolds(data: seq<Entry>, key: string, value: string)
    requires Sorted(data)
    ensures Sorted(Put(data, key, value))
    ensures forall e :: e in Put(data, key, value) <==> e == Entry(key, value) || (e in data && e.key != key)
  {
    var r := Put(data, key, value);
    if data == [] {
      assert r == [Entry(key, value)];
    } else {
      var head, tail := data[0], data[1..];
      assert data == [head] + tail;
      SortedTail(data);
      forall e | e in tail
        ensures e.key != head.key
      {
        LessOrder(head.key, e.key, e.key);
      }
      LessOrder(key, head.key, head.key);
      if Less(key, head.key) {
        forall e | e in tail
          ensures Less(key, e.key) && e.key != key
        {
          LessOrder(key, head.key, e.key);
          LessOrder(key, e.key, e.key);
        }
        SortedCons(Entry(key, value), data);
      } else if head.key == key {
        SortedCons(Entry(key, value), tail);
      } else {
        PutHolds(tail, key, value);
        SortedCons(head, Put(tail, key, value));
      }
    }
  }

  lemma SortedCons(e: Entry, tail: seq<Entry>)
    requires Sorted(tail) && forall x :: x in tail ==> Less(e.key, x.key)
    ensures Sorted([e] + tail)
  {
    var data := [e] + tail;
    forall i, j | 0 <= i < j < |data|
      ensures Ordered(data, i, j)
    {
      if i == 0 {
        assert data[j] == tail[j - 1];
      } else {
        assert Ordered(tail, i - 1, j - 1);
      }
    }
  }

  /** A key above all others goes to the end. */
  lemma {:induction false} PutLast(data: seq<Entry>, key: string, value: string)
    requires forall e :: e in data ==> Less(e.key, key)
    ensures Put(data, key, value) == data + [Entry(key, value)]
  {
    if data != [] {
      assert data[0] in data;
      LessOrder(data[0].key, key, key);
      PutLast(data[1..], key, value);
    }
  }

  // ------------------------------------------------------------- sections

  /** The part of a key before its first backslash. */
  function Section(key: string): (s: string)
    ensures s <= key && '\\' !in s
    ensures Plain(key) ==> s == key
    ensures !Plain(key) ==> |s| < |key| && key[|s|] == '\\'
  {
    if key == "" || key[0] == '\\' then "" else
      var rest := Section(key[1..]);
      assert key[1..][..|rest|] == rest && key == [key[0]] + key[1..];
      [key[0]] + rest
  }

  /** The part after it. */
  function Name(key: string): (n: string)
    ensures !Plain(key) ==> key == Section(key) + "\\" + n
  {
    if Plain(key) then key else key[|Section(key)| + 1..]
  }

  lemma {:induction false} SectionOfJoined(s: string, n: string)
    requires '\\' !in s
    ensures Section(s + "\\" + n) == s && Name(s + "\\" + n) == n && !Plain(s + "\\" + n)
  {
    var key := s + "\\" + n;
    assert key[|s|] == '\\';
    if s != "" {
      SectionOfJoined(s[1..], n);
      assert key[1..] == s[1..] + "\\" + n;
    }
  }

  /** What lies between two strings with a common prefix has that prefix too. */
  lemma {:induction false} LexBetween(p: string, a: string, b: string, c: string)
    requires Lex(p + a, b) && Lex(b, p + c)
    ensures p <= b
  {
    if p != "" {
      assert (p + a)[0] == p[0] == (p + c)[0];
      assert (p + a)[1..] == p[1..] + a && (p + c)[1..] == p[1..] + c;
      assert b != "" && b[0] == p[0];
      LexBetween(p[1..], a, b[1..], c);
      assert b == [b[0]] + b[1..] && p == [p[0]] + p[1..];
    }
  }

  lemma SectionOfPrefix(s: string, key: string)
    requires '\\' !in s && s + "\\" <= key
    ensures !Plain(key) && Section(key) == s
  {
    var n := key[|s| + 1..];
    assert key == s + "\\" + n;
    SectionOfJoined(s, n);
  }

  /** Keys of one section lie next to one another, behind all plain keys. */
  lemma SectionsContiguous(data: seq<Entry>, i: nat, j: nat, k: nat)
    requires Sorted(data) && i < j < k < |data|
    requires !Plain(data[i].key) && !Plain(data[k].key) && Section(data[i].key) == Section(data[k].key)
    ensures !Plain(data[j].key) && Section(data[j].key) == Section(data[i].key)
  {
    assert Ordered(data, i, j) && Ordered(data, j, k);
    SectionBetween(Section(data[i].key), data[i].key, data[j].key, data[k].key);
  }

  lemma SectionBetween(s: string, a: string, b: string, c: string)
    requires !Plain(a) && !Plain(c) && Section(a) == s && Section(c) == s && Less(a, b) && Less(b, c)
    ensures !Plain(b) && Section(b) == s
  {
    var x, y := Name(a), Name(c);
    var p := s + "\\";
    assert a == p + x && c == p + y;
    assert Lex(a, b) && Lex(b, c);
    LexBetween(p, x, b, y);
    SectionOfPrefix(s, b);
  }
}
