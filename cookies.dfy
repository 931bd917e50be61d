/**
 * `cookies.get`: finds a named value in a `document.cookie` string. The
 * cookie string is a parameter instead of a browser global.
 */
module Cookies {
  import opened Wrappers

  /** `s.split(sep)`: the pieces between separators; the empty string is one empty piece. */
  function Split(s: string, sep: char): (parts: seq<string>)
    ensures |parts| >= 1
    ensures forall i :: 0 <= i < |parts| ==> sep !in parts[i]
  {
    if s == [] then [""]
    else
      var rest := Split(s[1..], sep);
      if s[0] == sep then [""] + rest
      else [[s[0]] + rest[0]] + rest[1..]
  }

  /** `parts.join(sep)`. */
  function Join(parts: seq<string>, sep: char): string
  {
    if parts == [] then ""
    else if |parts| == 1 then parts[0]
    else parts[0] + [sep] + Join(parts[1..], sep)
  }

  /** Splitting loses nothing: joining the pieces again gives the input. */
  lemma {:induction false} JoinSplit(s: string, sep: char)
    ensures Join(Split(s, sep), sep) == s
  {
    if s != [] {
      var rest := Split(s[1..], sep);
      JoinSplit(s[1..], sep);
      if s[0] == sep {
        assert Split(s, sep) == [""] + rest;
        assert ([""] + rest)[1..] == rest;
      } else {
        var parts := Split(s, sep);
        assert parts == [[s[0]] + rest[0]] + rest[1..];
        if |rest| > 1 {
          assert parts[1..] == rest[1..];
          assert Join(rest, sep) == rest[0] + [sep] + Join(rest[1..], sep);
        }
        assert s == [s[0]] + s[1..];
      }
    }
  }

  /** `while (c.charAt(0) === ' ') c = c.substring(1)`. */
  function TrimLeadingSpaces(s: string): (t: string)
    ensures t == [] || t[0] != ' '
    ensures |t| <= |s|
  {
    if s != [] && s[0] == ' ' then TrimLeadingSpaces(s[1..]) else s
  }

  /** Trimming removes blanks only, and only at the front. */
  lemma {:induction false} TrimmedSuffix(s: string)
    ensures var t := TrimLeadingSpaces(s);
      t == s[|s| - |t|..] && forall k :: 0 <= k < |s| - |t| ==> s[k] == ' '
  {
    if s != [] && s[0] == ' ' {
      TrimmedSuffix(s[1..]);
    }
  }

  /** `s.indexOf(prefix) === 0`: the first occurrence is at the start exactly when `s` starts with it. */
  predicate StartsWith(s: string, prefix: string)
  {
    |prefix| <= |s| && s[..|prefix|] == prefix
  }

  /** An entry names the cookie once its leading blanks are gone. */
  predicate Matches(entry: string, nameEQ: string)
  {
    StartsWith(TrimLeadingSpaces(entry), nameEQ)
  }

  /** The value after `nameEQ` in the first entry that matches. */
  function Lookup(entries: seq<string>, nameEQ: string): Option<string>
  {
    if entries == [] then None
    else if Matches(entries[0], nameEQ) then Some(TrimLeadingSpaces(entries[0])[|nameEQ|..])
    else Lookup(entries[1..], nameEQ)
  }

  /** `cookies.get(name)`: the loop over the `;`-separated entries; `null` becomes `None`. */
  method CookieGet(cookie: string, name: string) returns (value: Option<string>)
    ensures value == Lookup(Split(cookie, ';'), name + "=")
  {
    var nameEQ := name + "=";
    var ca := Split(cookie, ';');
    var i := 0;
    while i < |ca|
      invariant 0 <= i <= |ca|
      invariant Lookup(ca, nameEQ) == Lookup(ca[i..], nameEQ)
    {
      var c := ca[i];
      while |c| > 0 && c[0] == ' '
        invariant TrimLeadingSpaces(c) == TrimLeadingSpaces(ca[i])
      {
        c := c[1..];
      }
      assert c == TrimLeadingSpaces(ca[i]);
      assert ca[i..][0] == ca[i] && ca[i..][1..] == ca[i + 1..];
      if StartsWith(c, nameEQ) {
        return Some(c[|nameEQ|..]);
      }
      i := i + 1;
    }
    return None;
  }

  /** The first entry that matches decides the result; later ones are never read. */
  lemma {:induction false} LookupFirstMatch(entries: seq<string>, nameEQ: string, i: nat)
    requires i < |entries|
    requires Matches(entries[i], nameEQ)
    requires forall j :: 0 <= j < i ==> !Matches(entries[j], nameEQ)
    ensures Lookup(entries, nameEQ) == Some(TrimLeadingSpaces(entries[i])[|nameEQ|..])
  {
    if i > 0 {
      assert !Matches(entries[0], nameEQ);
      assert entries[1..][i - 1] == entries[i];
      LookupFirstMatch(entries[1..], nameEQ, i - 1);
    }
  }

  /** Nothing is found exactly when no entry matches. */
  lemma {:induction false} LookupNone(entries: seq<string>, nameEQ: string)
    ensures Lookup(entries, nameEQ).None?
      <==> forall j :: 0 <= j < |entries| ==> !Matches(entries[j], nameEQ)
  {
    if entries != [] {
      LookupNone(entries[1..], nameEQ);
      forall j | 0 < j < |entries|
        ensures entries[j] == entries[1..][j - 1]
      {
      }
    }
  }

  /** One cookie as the browser lists it in `document.cookie`. */
  datatype Pair = Pair(name: string, value: string)

  function Entry(p: Pair): string
  {
    p.name + "=" + p.value
  }

  /** `document.cookie`: the entries joined by "; ". */
  function Serialize(pairs: seq<Pair>): string
  {
    if pairs == [] then ""
    else if |pairs| == 1 then Entry(pairs[0])
    else Entry(pairs[0]) + "; " + Serialize(pairs[1..])
  }

  predicate NameOk(name: string)
  {
    ';' !in name && '=' !in name && (name == [] || name[0] != ' ')
  }

  predicate PairOk(p: Pair)
  {
    NameOk(p.name) && ';' !in p.value
  }

  /** The value of the first cookie with the given name. */
  function FirstValue(pairs: seq<Pair>, name: string): Option<string>
  {
    if pairs == [] then None
    else if pairs[0].name == name then Some(pairs[0].value)
    else FirstValue(pairs[1..], name)
  }

  lemma {:induction false} SplitAfterSeparator(a: string, b: string, sep: char)
    requires sep !in a
    ensures Split(a + [sep] + b, sep) == [a] + Split(b, sep)
  {
    if a == [] {
      assert a + [sep] + b == [sep] + b;
      assert ([sep] + b)[1..] == b;
    } else {
      var s := a + [sep] + b;
      assert s[0] == a[0] && s[1..] == a[1..] + [sep] + b;
      SplitAfterSeparator(a[1..], b, sep);
      assert [a[0]] + a[1..] == a;
    }
  }

  lemma {:induction false} SplitWithoutSeparator(a: string, sep: char)
    requires sep !in a
    ensures Split(a, sep) == [a]
  {
    if a != [] {
      SplitWithoutSeparator(a[1..], sep);
      assert [a[0]] + a[1..] == a;
    }
  }

  lemma {:induction false} TrimLeadingSpace(s: string)
    ensures TrimLeadingSpaces(" " + s) == TrimLeadingSpaces(s)
  {
    assert (" " + s)[1..] == s;
  }

  lemma PrefixParts(e: string, name: string)
    requires StartsWith(e, name + "=")
    ensures e[|name|] == '=' && e[..|name|] == name
  {
    assert e[..|name|] == e[..|name| + 1][..|name|];
    assert (name + "=")[..|name|] == name;
  }

  /** An entry is found under a name exactly when it is that name's entry. */
  lemma EntryMatch(p: Pair, name: string)
    requires PairOk(p) && '=' !in name
    ensures TrimLeadingSpaces(Entry(p)) == Entry(p)
    ensures StartsWith(Entry(p), name + "=") <==> p.name == name
    ensures p.name == name ==> Entry(p)[|name + "="|..] == p.value
  {
    var e := Entry(p);
    assert e[|p.name|] == '=';
    if p.name != [] {
      assert e[0] == p.name[0];
    }
    if p.name == name {
      assert e == (name + "=") + p.value;
      assert e[..|name + "="|] == name + "=";
    } else if StartsWith(e, name + "=") {
      PrefixParts(e, name);
    }
  }

  /** A blank after the separator does not change which entry matches. */
  lemma LookupAfterBlank(rest: string, nameEQ: string)
    ensures Lookup(Split(" " + rest, ';'), nameEQ) == Lookup(Split(rest, ';'), nameEQ)
  {
    var tail := Split(rest, ';');
    assert (" " + rest)[1..] == rest;
    var parts := Split(" " + rest, ';');
    assert parts == [" " + tail[0]] + tail[1..];
    TrimLeadingSpace(tail[0]);
    assert parts[1..] == tail[1..];
  }

  lemma SerializeShape(pairs: seq<Pair>)
    requires |pairs| > 1
    ensures Serialize(pairs) == Entry(pairs[0]) + [';'] + (" " + Serialize(pairs[1..]))
  {
    var rest, entry := Serialize(pairs[1..]), Entry(pairs[0]);
    assert Serialize(pairs) == entry + "; " + rest;
  }

  lemma SerializeCons(pairs: seq<Pair>)
    requires |pairs| > 1 && ';' !in Entry(pairs[0])
    ensures Split(Serialize(pairs), ';') == [Entry(pairs[0])] + Split(" " + Serialize(pairs[1..]), ';')
  {
    SerializeShape(pairs);
    SplitAfterSeparator(Entry(pairs[0]), " " + Serialize(pairs[1..]), ';');
  }

  /**
   * On a cookie string the browser writes, with names free of `;`, `=` and
   * leading blanks and values free of `;`, `get` returns the value of the
   * first cookie of that name, and `null` when there is none.
   */
  lemma {:induction false} GetFindsFirstCookie(pairs: seq<Pair>, name: string)
    requires forall i :: 0 <= i < |pairs| ==> PairOk(pairs[i])
    requires '=' !in name
    ensures Lookup(Split(Serialize(pairs), ';'), name + "=") == FirstValue(pairs, name)
  {
    var nameEQ := name + "=";
    if pairs == [] {
      assert Split("", ';') == [""];
      assert !Matches("", nameEQ);
    } else {
      var p := pairs[0];
      assert PairOk(p);
      EntryMatch(p, name);
      var entries := Split(Serialize(pairs), ';');
      if |pairs| == 1 {
        SplitWithoutSeparator(Entry(p), ';');
      } else {
        SerializeCons(pairs);
        assert entries[1..] == Split(" " + Serialize(pairs[1..]), ';');
        LookupAfterBlank(Serialize(pairs[1..]), nameEQ);
        GetFindsFirstCookie(pairs[1..], name);
      }
      assert entries[0] == Entry(p);
    }
  }
}
