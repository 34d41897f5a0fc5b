/** The handler name normaliser: turns a resource name from the server's
    description document ("MachinesHandler") into the command name the
    client exposes it under ("machines"). */
module Naming {
  import opened Strings

  predicate IsUpper(c: char) { 'A' <= c <= 'Z' }

  predicate IsLowerOrDigit(c: char) { 'a' <= c <= 'z' || '0' <= c <= '9' }

  predicate IsWordChar(c: char) { IsUpper(c) || IsLowerOrDigit(c) }

  /** Length of the run of upper-case letters that starts `s`. */
  function UpperSpan(s: string): (n: nat)
    ensures n <= |s|
    ensures forall i | 0 <= i < n :: IsUpper(s[i])
    ensures n == |s| || !IsUpper(s[n])
  {
    if s != [] && IsUpper(s[0]) then 1 + UpperSpan(s[1..]) else 0
  }

  /** Length of the run of lower-case letters and digits that starts `s`. */
  function LowerSpan(s: string): (n: nat)
    ensures n <= |s|
    ensures forall i | 0 <= i < n :: IsLowerOrDigit(s[i])
    ensures n == |s| || !IsLowerOrDigit(s[n])
  {
    if s != [] && IsLowerOrDigit(s[0]) then 1 + LowerSpan(s[1..]) else 0
  }

  /** A non-empty run of letters and digits. */
  predicate IsWord(w: string) {
    w != [] && forall i | 0 <= i < |w| :: IsWordChar(w[i])
  }

  /** All the matches, left to right, of the regular expression
      `([A-Z]*[a-z0-9]+|[A-Z]+)(?:(?=[^a-z0-9])|\Z)`: at each position
      the first alternative takes the upper-case run and the lower-case or
      digit run after it; failing that the second takes the upper-case run
      alone (the look-ahead then always holds, since the run is maximal);
      a position where neither matches is skipped. */
  function CamelWords(s: string): (words: seq<string>)
    decreases |s|
  {
    if s == [] then []
    else
      var u := UpperSpan(s);
      if u < |s| && IsLowerOrDigit(s[u]) then
        var n := u + LowerSpan(s[u..]);
        [s[..n]] + CamelWords(s[n..])
      else if u > 0 then
        [s[..u]] + CamelWords(s[u..])
      else
        CamelWords(s[1..])
  }

  /** Every word found is a non-empty run of letters and digits. */
  lemma {:induction false} CamelWordsAreWords(s: string)
    ensures forall k | 0 <= k < |CamelWords(s)| :: IsWord(CamelWords(s)[k])
    decreases |s|
  {
    if s != [] {
      var u := UpperSpan(s);
      if u < |s| && IsLowerOrDigit(s[u]) {
        var n := u + LowerSpan(s[u..]);
        assert IsWord(s[..n]) by {
          forall i | 0 <= i < n ensures IsWordChar(s[i]) {
            if i >= u { assert s[u..][i - u] == s[i]; }
          }
        }
        CamelWordsAreWords(s[n..]);
      } else if u > 0 {
        CamelWordsAreWords(s[u..]);
      } else {
        CamelWordsAreWords(s[1..]);
      }
    }
  }

  /** The characters of `s` that the pattern can match, in order. */
  function WordChars(s: string): (r: string)
    ensures forall i | 0 <= i < |r| :: IsWordChar(r[i])
  {
    if s == [] then []
    else (if IsWordChar(s[0]) then [s[0]] else []) + WordChars(s[1..])
  }

  function Concat(words: seq<string>): string {
    if words == [] then [] else words[0] + Concat(words[1..])
  }

  lemma {:induction false} WordCharsAppend(a: string, b: string)
    ensures WordChars(a + b) == WordChars(a) + WordChars(b)
  {
    if a != [] {
      var head := if IsWordChar(a[0]) then [a[0]] else [];
      assert (a + b)[0] == a[0];
      assert (a + b)[1..] == a[1..] + b;
      WordCharsAppend(a[1..], b);
      calc {
        WordChars(a + b);
        head + WordChars(a[1..] + b);
        head + (WordChars(a[1..]) + WordChars(b));
        (head + WordChars(a[1..])) + WordChars(b);
      }
    } else {
      assert a + b == b;
    }
  }

  lemma {:induction false} WordCharsOfWordChars(w: string)
    requires forall i | 0 <= i < |w| :: IsWordChar(w[i])
    ensures WordChars(w) == w
  {
    if w != [] {
      WordCharsOfWordChars(w[1..]);
    }
  }

  /** One step of the scan: either the first character cannot start a
      match and is skipped, or the next word is the whole run of word
      characters the pattern takes from the front of `s`. */
  lemma CamelWordsStep(s: string) returns (n: nat)
    requires s != []
    ensures n <= |s|
    ensures n == 0 ==> !IsWordChar(s[0]) && CamelWords(s) == CamelWords(s[1..])
    ensures n > 0 ==> (forall i | 0 <= i < n :: IsWordChar(s[i])) && CamelWords(s) == [s[..n]] + CamelWords(s[n..])
  {
    var u := UpperSpan(s);
    n := if u < |s| && IsLowerOrDigit(s[u]) then u + LowerSpan(s[u..]) else u;
    forall i | 0 <= i < n
      ensures IsWordChar(s[i])
    {
      if i >= u { assert s[u..][i - u] == s[i]; }
    }
  }

  /** The words partition the letters and digits of `s`: nothing the
      pattern can match is dropped, nothing else is kept, and the order is
      that of `s`. */
  lemma {:induction false} CamelWordsCoverWordChars(s: string)
    ensures Concat(CamelWords(s)) == WordChars(s)
    decreases |s|
  {
    if s != [] {
      var n := CamelWordsStep(s);
      if n == 0 {
        CamelWordsCoverWordChars(s[1..]);
      } else {
        CamelWordsCoverWordChars(s[n..]);
        CoverStep(s, n, CamelWords(s[n..]));
      }
    }
  }

  /** The inductive step of `CamelWordsCoverWordChars` for a word taken
      from the front of `s`. */
  lemma CoverStep(s: string, n: nat, rest: seq<string>)
    requires 0 < n <= |s|
    requires forall i | 0 <= i < n :: IsWordChar(s[i])
    requires Concat(rest) == WordChars(s[n..])
    ensures Concat([s[..n]] + rest) == WordChars(s)
  {
    assert s == s[..n] + s[n..];
    WordCharsAppend(s[..n], s[n..]);
    WordCharsOfWordChars(s[..n]);
    assert ([s[..n]] + rest)[1..] == rest;
  }

  function Lower(c: char): (d: char)
    ensures IsUpper(c) ==> d as int == c as int + 32
    ensures !IsUpper(c) ==> d == c
  {
    if IsUpper(c) then (c as int + 32) as char else c
  }

  /** `w.lower()` for the ASCII letters and digits a word is made of. */
  function LowerWord(w: string): (r: string)
    ensures |r| == |w|
    ensures forall i | 0 <= i < |w| :: r[i] == Lower(w[i])
  {
    seq(|w|, i requires 0 <= i < |w| => Lower(w[i]))
  }

  /** The parts a command name is joined from: the words lowered, every
      "handler" dropped. */
  function CommandWords(words: seq<string>): (parts: seq<string>)
    ensures |parts| <= |words|
    ensures forall k | 0 <= k < |parts| :: parts[k] != "handler"
  {
    if words == [] then []
    else
      var w := LowerWord(words[0]);
      (if w == "handler" then [] else [w]) + CommandWords(words[1..])
  }

  /** A non-empty run of lower-case letters and digits. */
  predicate IsLowerWord(w: string) {
    w != [] && forall i | 0 <= i < |w| :: IsLowerOrDigit(w[i])
  }

  /** The shape of every command name: lower-case letters, digits and
      underscores, with no underscore at either end and none doubled. */
  predicate IsCommandName(r: string) {
    && (forall i | 0 <= i < |r| :: IsLowerOrDigit(r[i]) || r[i] == '_')
    && (r == [] || (r[0] != '_' && r[|r| - 1] != '_'))
    && (forall i | 0 <= i < |r| - 1 :: !(r[i] == '_' && r[i + 1] == '_'))
  }

  lemma {:induction false} CommandWordsAreLowerWords(words: seq<string>)
    requires forall k | 0 <= k < |words| :: IsWord(words[k])
    ensures forall k | 0 <= k < |CommandWords(words)| ::
      IsLowerWord(CommandWords(words)[k]) && CommandWords(words)[k] != "handler"
  {
    if words != [] {
      CommandWordsAreLowerWords(words[1..]);
    }
  }

  lemma {:induction false} JoinStartsWithFirst(parts: seq<string>, sep: string)
    requires parts != []
    ensures |Join(parts, sep)| >= |parts[0]|
    ensures Join(parts, sep)[..|parts[0]|] == parts[0]
  {
    if |parts| > 1 {
      assert Join(parts, sep) == parts[0] + (sep + Join(parts[1..], sep));
    }
  }

  /** Joining lower-case words with underscores gives a command name. */
  lemma {:induction false} JoinIsCommandName(parts: seq<string>)
    requires forall k | 0 <= k < |parts| :: IsLowerWord(parts[k])
    ensures IsCommandName(Join(parts, "_"))
  {
    if |parts| > 1 {
      JoinIsCommandName(parts[1..]);
      var r := Join(parts, "_");
      var p, t := parts[0], Join(parts[1..], "_");
      assert r == p + "_" + t;
      JoinStartsWithFirst(parts[1..], "_");
      assert t != [] && t[0] != '_' by { assert t[0] == parts[1][0]; }
      forall i | 0 <= i < |r| - 1
        ensures !(r[i] == '_' && r[i + 1] == '_')
      {
        if i >= |p| + 1 {
          assert r[i] == t[i - |p| - 1] && r[i + 1] == t[i - |p|];
        }
      }
    }
  }

  /** `handler_command_name`: the camel-case words lowered, every
      "handler" dropped, the rest joined with underscores. The result is a
      command name. */
  function HandlerCommandName(s: string): (r: string)
    ensures IsCommandName(r)
  {
    var parts := CommandWords(CamelWords(s));
    CamelWordsAreWords(s);
    CommandWordsAreLowerWords(CamelWords(s));
    JoinIsCommandName(parts);
    Join(parts, "_")
  }

  lemma {:induction false} LowerSpanOfWordThenOther(w: string, t: string)
    requires forall i | 0 <= i < |w| :: IsLowerOrDigit(w[i])
    requires t == [] || !IsLowerOrDigit(t[0])
    ensures LowerSpan(w + t) == |w|
  {
    if w != [] {
      assert (w + t)[1..] == w[1..] + t;
      LowerSpanOfWordThenOther(w[1..], t);
    }
  }

  /** A lower-case word followed by something that cannot continue it is
      found as one word. */
  lemma CamelWordsLowerThen(w: string, t: string)
    requires IsLowerWord(w)
    requires t == [] || !IsLowerOrDigit(t[0])
    ensures CamelWords(w + t) == [w] + CamelWords(t)
  {
    var s := w + t;
    assert s[0] == w[0];
    assert UpperSpan(s) == 0;
    assert s[0..] == s;
    LowerSpanOfWordThenOther(w, t);
    assert s[..|w|] == w && s[|w|..] == t;
  }

  /** An underscore is skipped. */
  lemma CamelWordsSkipUnderscore(t: string)
    ensures CamelWords("_" + t) == CamelWords(t)
  {
    var s := "_" + t;
    assert s[0] == '_';
    assert UpperSpan(s) == 0;
    assert s[1..] == t;
  }

  /** Reading back a name joined from lower-case words finds exactly those
      words. */
  lemma {:induction false} CamelWordsOfJoin(parts: seq<string>)
    requires forall k | 0 <= k < |parts| :: IsLowerWord(parts[k])
    ensures CamelWords(Join(parts, "_")) == parts
  {
    if |parts| == 1 {
      CamelWordsLowerThen(parts[0], []);
      assert parts[0] + [] == parts[0];
      assert CamelWords([]) == [];
    } else if |parts| > 1 {
      var w, t := parts[0], Join(parts[1..], "_");
      assert Join(parts, "_") == w + ("_" + t);
      CamelWordsLowerThen(w, "_" + t);
      CamelWordsSkipUnderscore(t);
      CamelWordsOfJoin(parts[1..]);
      assert parts == [w] + parts[1..];
    }
  }

  lemma {:induction false} CommandWordsOfLowerWords(parts: seq<string>)
    requires forall k | 0 <= k < |parts| :: IsLowerWord(parts[k]) && parts[k] != "handler"
    ensures CommandWords(parts) == parts
  {
    if parts != [] {
      assert LowerWord(parts[0]) == parts[0];
      CommandWordsOfLowerWords(parts[1..]);
    }
  }

  /** A name already joined from lower-case words, none of them "handler",
      is left as it is. */
  lemma NormalisedNameIsFixed(parts: seq<string>)
    requires forall k | 0 <= k < |parts| :: IsLowerWord(parts[k]) && parts[k] != "handler"
    ensures HandlerCommandName(Join(parts, "_")) == Join(parts, "_")
  {
    CamelWordsOfJoin(parts);
    CommandWordsOfLowerWords(parts);
  }

  /** Normalising twice is normalising once. */
  lemma HandlerCommandNameIdempotent(s: string)
    ensures HandlerCommandName(HandlerCommandName(s)) == HandlerCommandName(s)
  {
    CamelWordsAreWords(s);
    CommandWordsAreLowerWords(CamelWords(s));
    NormalisedNameIsFixed(CommandWords(CamelWords(s)));
  }

  /** The name's parts are the camel-case words of `s`, lowered, without
      "handler", and nothing else: reading the name back yields them. */
  lemma HandlerCommandNameParts(s: string)
    ensures CamelWords(HandlerCommandName(s)) == CommandWords(CamelWords(s))
  {
    CamelWordsAreWords(s);
    CommandWordsAreLowerWords(CamelWords(s));
    CamelWordsOfJoin(CommandWords(CamelWords(s)));
  }

  /** One capitalised word followed by something that cannot continue it. */
  lemma CamelWordsCapitalised(w: string, t: string)
    requires |w| >= 2 && IsUpper(w[0])
    requires forall i | 1 <= i < |w| :: IsLowerOrDigit(w[i])
    requires t == [] || !IsLowerOrDigit(t[0])
    ensures CamelWords(w + t) == [w] + CamelWords(t)
  {
    var s := w + t;
    assert UpperSpan(s) == 1 by {
      assert s[1..] != [] && !IsUpper(s[1..][0]);
    }
    assert s[1..] == w[1..] + t;
    LowerSpanOfWordThenOther(w[1..], t);
    assert s[..|w|] == w && s[|w|..] == t;
  }

  /** A run of upper-case letters. */
  predicate IsUpperRun(u: string) {
    forall i | 0 <= i < |u| :: IsUpper(u[i])
  }

  lemma {:induction false} UpperSpanOfRunThen(u: string, t: string)
    requires IsUpperRun(u)
    requires t == [] || !IsUpper(t[0])
    ensures UpperSpan(u + t) == |u|
  {
    if u != [] {
      assert (u + t)[0] == u[0];
      assert (u + t)[1..] == u[1..] + t;
      UpperSpanOfRunThen(u[1..], t);
    }
  }

  /** The first alternative takes the whole upper-case run together with
      the lower-case or digit run after it: "IPRanges" is one word, not
      "IP" and "Ranges". */
  lemma CamelWordsUpperLower(u: string, l: string, t: string)
    requires IsUpperRun(u) && IsLowerWord(l)
    requires t == [] || !IsLowerOrDigit(t[0])
    ensures CamelWords(u + l + t) == [u + l] + CamelWords(t)
  {
    var s := u + l + t;
    assert s == u + (l + t);
    assert (l + t)[0] == l[0];
    UpperSpanOfRunThen(u, l + t);
    assert s[|u|..] == l + t;
    assert s != [];
    LowerSpanOfWordThenOther(l, t);
    assert s[|u|] == l[0];
    assert s[..|u| + |l|] == u + l && s[|u| + |l|..] == t;
  }

  /** An upper-case run followed by no letter or digit is one word, taken
      by the second alternative. */
  lemma CamelWordsUpperRun(u: string, t: string)
    requires u != [] && IsUpperRun(u)
    requires t == [] || !IsWordChar(t[0])
    ensures CamelWords(u + t) == [u] + CamelWords(t)
  {
    var s := u + t;
    UpperSpanOfRunThen(u, t);
    assert |u| < |s| ==> s[|u|] == t[0];
    assert s[..|u|] == u && s[|u|..] == t;
  }

  /** The parts of a concatenation are the parts of each half, in order. */
  lemma {:induction false} CommandWordsAppend(a: seq<string>, b: seq<string>)
    ensures CommandWords(a + b) == CommandWords(a) + CommandWords(b)
    decreases |a|
  {
    if a == [] {
      assert a + b == b;
    } else {
      assert (a + b)[0] == a[0];
      assert (a + b)[1..] == a[1..] + b;
      CommandWordsAppend(a[1..], b);
    }
  }

  /** One word gives its lowered form, or nothing when that is "handler". */
  lemma CommandWordsSingle(w: string)
    ensures CommandWords([w]) == if LowerWord(w) == "handler" then [] else [LowerWord(w)]
  {
    assert [w][1..] == [];
  }
}

/** The worked examples of the normaliser. Each takes the name as a
    parameter fixed by its precondition, so that the verifier reasons about
    the name step by step instead of evaluating the recursion on a literal. */
module NamingExamples {
  import opened Strings
  import opened Naming

  /** An upper-case letter followed by lower-case letters or digits. */
  predicate IsCapitalised(w: string) {
    |w| >= 2 && IsUpper(w[0]) && forall i | 1 <= i < |w| :: IsLowerOrDigit(w[i])
  }

  /** A name written as capitalised words splits into exactly those words. */
  lemma {:induction false} CamelWordsOfCapitalised(words: seq<string>)
    requires forall k | 0 <= k < |words| :: IsCapitalised(words[k])
    ensures CamelWords(Concat(words)) == words
  {
    if words != [] {
      var rest := Concat(words[1..]);
      assert rest == [] || !IsLowerOrDigit(rest[0]) by {
        if words[1..] != [] {
          assert rest == words[1] + Concat(words[2..]);
          assert rest[0] == words[1][0];
        }
      }
      CamelWordsCapitalised(words[0], rest);
      CamelWordsOfCapitalised(words[1..]);
    }
  }

  lemma LowerWordsOfExamples()
    ensures LowerWord("Machines") == "machines"
    ensures LowerWord("Node") == "node"
    ensures LowerWord("Group") == "group"
    ensures LowerWord("Interfaces") == "interfaces"
    ensures LowerWord("Handler") == "handler"
  {
  }

  /** The words of the example names, concatenated, are the names. */
  lemma MachinesHandlerWords(words: seq<string>)
    requires words == ["Machines", "Handler"]
    ensures Concat(words) == "MachinesHandler"
  {
    assert Concat(words[1..]) == "Handler" + [];
  }

  lemma NodeGroupInterfacesHandlerWords(words: seq<string>)
    requires words == ["Node", "Group", "Interfaces", "Handler"]
    ensures Concat(words) == "NodeGroupInterfacesHandler"
  {
    assert Concat(words[3..]) == "Handler" + [];
    assert Concat(words[2..]) == "Interfaces" + Concat(words[3..]);
    assert Concat(words[1..]) == "Group" + Concat(words[2..]);
  }

  /** "MachinesHandler" becomes "machines". */
  lemma MachinesHandlerExample(words: seq<string>)
    requires words == ["Machines", "Handler"]
    ensures HandlerCommandName(Concat(words)) == "machines"
  {
    CamelWordsOfCapitalised(words);
    LowerWordsOfExamples();
    assert CommandWords(words[1..]) == [];
  }

  /** "NodeGroupInterfacesHandler" becomes "node_group_interfaces". */
  lemma NodeGroupInterfacesHandlerExample(words: seq<string>)
    requires words == ["Node", "Group", "Interfaces", "Handler"]
    ensures HandlerCommandName(Concat(words)) == "node_group_interfaces"
  {
    CamelWordsOfCapitalised(words);
    CommandWordsOfExample(words);
    JoinOfExample();
  }

  lemma CommandWordsOfExample(words: seq<string>)
    requires words == ["Node", "Group", "Interfaces", "Handler"]
    ensures CommandWords(words) == ["node", "group", "interfaces"]
  {
    LowerWordsOfExamples();
    assert CommandWords(words[3..]) == [];
    assert CommandWords(words[2..]) == ["interfaces"];
    assert CommandWords(words[1..]) == ["group", "interfaces"];
  }

  /** Two words, each an upper-case run followed by a lower-case run. */
  lemma CamelWordsTwoWords(u: string, l: string, h: string, a: string)
    requires IsUpperRun(u) && IsLowerWord(l) && h != [] && IsUpperRun(h) && IsLowerWord(a)
    ensures CamelWords(u + l + (h + a)) == [u + l, h + a]
  {
    assert (h + a)[0] == h[0];
    CamelWordsUpperLower(u, l, h + a);
    assert h + a + [] == h + a;
    CamelWordsUpperLower(h, a, []);
  }

  /** "IPRangesHandler", written as its pieces "IPR" + "anges" + "H" +
      "andler", splits into "IPRanges" and "Handler": the leading capitals
      stay with the word they start. It becomes "ipranges". */
  lemma IPRangesHandlerExample(u: string, l: string, h: string, a: string)
    requires u == "IPR" && l == "anges" && h == "H" && a == "andler"
    ensures CamelWords(u + l + (h + a)) == [u + l, h + a]
    ensures u + l == "IPRanges" && h + a == "Handler"
    ensures HandlerCommandName(u + l + (h + a)) == "ipranges"
  {
    assert IsUpperRun(u) by { assert u[0] == 'I' && u[1] == 'P' && u[2] == 'R'; }
    assert IsLowerWord(l);
    assert IsUpperRun(h);
    assert IsLowerWord(a);
    CamelWordsTwoWords(u, l, h, a);
    IPRangesPieces(u, l, h, a);
    IPRangesCommandWords(u + l, h + a);
    assert Join([LowerWord(u + l)], "_") == LowerWord(u + l);
  }

  lemma IPRangesPieces(u: string, l: string, h: string, a: string)
    requires u == "IPR" && l == "anges" && h == "H" && a == "andler"
    ensures u + l == "IPRanges" && h + a == "Handler"
  {
  }

  lemma IPRangesCommandWords(w1: string, w2: string)
    requires w1 == "IPRanges" && w2 == "Handler"
    ensures CommandWords([w1, w2]) == [LowerWord(w1)]
    ensures LowerWord(w1) == "ipranges"
  {
    assert [w1, w2] == [w1] + [w2];
    CommandWordsAppend([w1], [w2]);
    CommandWordsSingle(w1);
    CommandWordsSingle(w2);
    assert LowerWord(w1) == "ipranges";
    assert LowerWord(w2) == "handler";
  }

  lemma JoinOfExample()
    ensures Join(["node", "group", "interfaces"], "_") == "node_group_interfaces"
  {
    assert Join(["interfaces"], "_") == "interfaces";
    assert Join(["group", "interfaces"], "_") == "group_interfaces";
  }
}
