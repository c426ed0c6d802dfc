/**
 The address pattern `validateEmail` tests (shared/SGEmailService.js:199),
 written out by hand:

   local part  = one or more atoms joined by `.`, an atom being one or more
                 characters outside `<>()[]\.,;:@"` and whitespace,
                 or a `"` ... `"` quote around at least one character that is
                 not a line terminator;
   `@`;
   domain      = `[` four groups of one to three digits joined by `.` `]`,
                 or one or more host labels over `[a-zA-Z0-9-]`, each followed
                 by `.`, then a top-level label of at least two letters.

 The pattern is anchored at both ends and applied to the lower-cased address.
 `PatternMatch` states the pattern in the shape of the regular expression
 (existentials over how the text decomposes); `Recognise` decides it by
 splitting on `.`. `RecogniseIsPatternMatch` proves that the two agree.
 */
module EmailPattern {
  import opened JsValues

  // ---------------------------------------------------------------------------
  // Character classes

  /** `[^<>()\[\]\\.,;:\s@"]` */
  predicate AtomChar(c: char)
  {
    c !in "<>()[]\\.,;:@\"" && !IsJsWhitespace(c)
  }

  /** `[a-zA-Z\-0-9]` */
  predicate HostChar(c: char)
  {
    ('a' <= c <= 'z') || ('A' <= c <= 'Z') || c == '-' || IsDigit(c)
  }

  /** `[a-zA-Z]` */
  predicate Letter(c: char)
  {
    ('a' <= c <= 'z') || ('A' <= c <= 'Z')
  }

  /** `[^<>()\[\]\\.,;:\s@"]+` */
  predicate Atom(a: string)
  {
    |a| > 0 && forall i :: 0 <= i < |a| ==> AtomChar(a[i])
  }

  /** `[a-zA-Z\-0-9]+` */
  predicate HostLabel(a: string)
  {
    |a| > 0 && forall i :: 0 <= i < |a| ==> HostChar(a[i])
  }

  /** `[a-zA-Z]{2,}` */
  predicate TopLabel(a: string)
  {
    |a| >= 2 && forall i :: 0 <= i < |a| ==> Letter(a[i])
  }

  /** `[0-9]{1,3}` */
  predicate Octet(a: string)
  {
    1 <= |a| <= 3 && AllDigits(a)
  }

  /** The labels of `([a-zA-Z\-0-9]+\.)+[a-zA-Z]{2,}`: host labels, then a
      top-level label. */
  predicate HostLabels(w: seq<string>)
  {
    |w| >= 2 && (forall k :: 0 <= k < |w| - 1 ==> HostLabel(w[k])) && TopLabel(w[|w| - 1])
  }

  /** `".+"` */
  predicate QuotedForm(l: string)
  {
    |l| >= 3 && l[0] == '"' && l[|l| - 1] == '"' &&
    forall i :: 1 <= i < |l| - 1 ==> !IsLineTerminator(l[i])
  }

  /** `String.prototype.toLowerCase` on the ASCII letters. */
  function ToLowerChar(c: char): char
  {
    if 'A' <= c <= 'Z' then (c as int + 32) as char else c
  }

  function ToLower(s: string): string
  {
    seq(|s|, i requires 0 <= i < |s| => ToLowerChar(s[i]))
  }

  /** Text without upper-case ASCII letters is its own lower-case form. */
  lemma ToLowerNoUpper(s: string)
    requires forall i :: 0 <= i < |s| ==> !('A' <= s[i] <= 'Z')
    ensures ToLower(s) == s
  {
  }

  // ---------------------------------------------------------------------------
  // Splitting on and joining with a separator

  /** `s.split(sep)`: the pieces between separators, always at least one. */
  function Split(s: string, sep: char): seq<string>
    decreases |s|
  {
    if |s| == 0 then [""]
    else
      var rest := Split(s[1..], sep);
      if s[0] == sep then [""] + rest else [[s[0]] + rest[0]] + rest[1..]
  }

  /** `parts.join(sep)` */
  function Join(parts: seq<string>, sep: char): string
    decreases |parts|
  {
    if |parts| == 0 then ""
    else if |parts| == 1 then parts[0]
    else parts[0] + [sep] + Join(parts[1..], sep)
  }

  lemma {:induction false} SplitNonEmpty(s: string, sep: char)
    ensures |Split(s, sep)| >= 1
    decreases |s|
  {
    if |s| > 0 {
      SplitNonEmpty(s[1..], sep);
    }
  }

  /** Joining the pieces of a split restores the text. */
  lemma {:induction false} JoinSplit(s: string, sep: char)
    ensures Join(Split(s, sep), sep) == s
    decreases |s|
  {
    if |s| > 0 {
      var rest := Split(s[1..], sep);
      SplitNonEmpty(s[1..], sep);
      JoinSplit(s[1..], sep);
      if s[0] == sep {
        assert Split(s, sep) == [""] + rest;
        assert ([""] + rest)[1..] == rest;
      } else {
        var parts := Split(s, sep);
        assert parts == [[s[0]] + rest[0]] + rest[1..];
        if |rest| == 1 {
          assert Join(parts, sep) == [s[0]] + rest[0];
        } else {
          assert parts[1..] == rest[1..];
          assert Join(rest, sep) == rest[0] + [sep] + Join(rest[1..], sep);
          assert Join(parts, sep) == [s[0]] + rest[0] + [sep] + Join(rest[1..], sep);
        }
      }
    }
  }

  /** Text without the separator splits into itself. */
  lemma {:induction false} SplitWithoutSeparator(s: string, sep: char)
    requires sep !in s
    ensures Split(s, sep) == [s]
    decreases |s|
  {
    if |s| > 0 {
      assert sep !in s[1..];
      SplitWithoutSeparator(s[1..], sep);
      assert [s[0]] + s[1..] == s;
    }
  }

  /** Splitting `a + sep + b` where `a` holds no separator peels off `a`. */
  lemma {:induction false} SplitAtSeparator(a: string, b: string, sep: char)
    requires sep !in a
    ensures Split(a + [sep] + b, sep) == [a] + Split(b, sep)
    decreases |a|
  {
    if |a| == 0 {
      assert a + [sep] + b == [sep] + b;
      assert ([sep] + b)[1..] == b;
    } else {
      assert sep !in a[1..];
      SplitAtSeparator(a[1..], b, sep);
      var s := a + [sep] + b;
      assert s[1..] == a[1..] + [sep] + b;
      assert s[0] == a[0];
      var rest := Split(s[1..], sep);
      assert rest == [a[1..]] + Split(b, sep);
      assert [a[0]] + a[1..] == a;
    }
  }

  /** Splitting the join of separator-free pieces gives the pieces back. */
  lemma {:induction false} SplitJoin(parts: seq<string>, sep: char)
    requires |parts| >= 1
    requires forall k :: 0 <= k < |parts| ==> sep !in parts[k]
    ensures Split(Join(parts, sep), sep) == parts
    decreases |parts|
  {
    if |parts| == 1 {
      SplitWithoutSeparator(parts[0], sep);
    } else {
      SplitJoin(parts[1..], sep);
      SplitAtSeparator(parts[0], Join(parts[1..], sep), sep);
      assert [parts[0]] + parts[1..] == parts;
    }
  }

  // ---------------------------------------------------------------------------
  // The pattern, in the shape of the regular expression

  /** `[^...]+(\.[^...]+)*` */
  ghost predicate DotAtomForm(l: string)
  {
    exists atoms: seq<string> ::
      |atoms| >= 1 && (forall k :: 0 <= k < |atoms| ==> Atom(atoms[k])) && l == Join(atoms, '.')
  }

  /** `\[[0-9]{1,3}\.[0-9]{1,3}\.[0-9]{1,3}\.[0-9]{1,3}\]` */
  ghost predicate IpLiteralForm(d: string)
  {
    exists octets: seq<string> ::
      |octets| == 4 && (forall k :: 0 <= k < 4 ==> Octet(octets[k])) && d == "[" + Join(octets, '.') + "]"
  }

  /** `([a-zA-Z\-0-9]+\.)+[a-zA-Z]{2,}` */
  ghost predicate HostNameForm(d: string)
  {
    exists labels: seq<string> :: HostLabels(labels) && d == Join(labels, '.')
  }

  ghost predicate LocalForm(l: string)
  {
    DotAtomForm(l) || QuotedForm(l)
  }

  ghost predicate DomainForm(d: string)
  {
    IpLiteralForm(d) || HostNameForm(d)
  }

  /** The whole anchored pattern: some `@` separates a local part from a domain. */
  ghost predicate PatternMatch(s: string)
  {
    exists i :: 0 <= i < |s| && s[i] == '@' && LocalForm(s[..i]) && DomainForm(s[i + 1..])
  }

  // ---------------------------------------------------------------------------
  // The recogniser

  predicate LocalOk(l: string)
  {
    QuotedForm(l) ||
    var atoms := Split(l, '.');
    forall k :: 0 <= k < |atoms| ==> Atom(atoms[k])
  }

  predicate IpLiteralOk(d: string)
  {
    |d| >= 2 && d[0] == '[' && d[|d| - 1] == ']' &&
    var octets := Split(d[1..|d| - 1], '.');
    |octets| == 4 && forall k :: 0 <= k < 4 ==> Octet(octets[k])
  }

  predicate HostNameOk(d: string)
  {
    HostLabels(Split(d, '.'))
  }

  predicate DomainOk(d: string)
  {
    IpLiteralOk(d) || HostNameOk(d)
  }

  /** Tries every `@` as the separator, as a backtracking matcher would. */
  predicate Recognise(s: string)
  {
    exists i :: 0 <= i < |s| && s[i] == '@' && LocalOk(s[..i]) && DomainOk(s[i + 1..])
  }

  /** `re.test(String(email).toLowerCase())` for a string `email`. */
  predicate Matches(email: string)
  {
    Recognise(ToLower(email))
  }

  // ---------------------------------------------------------------------------
  // The recogniser decides the pattern

  lemma LocalOkIsLocalForm(l: string)
    ensures LocalOk(l) <==> LocalForm(l)
  {
    var atoms := Split(l, '.');
    SplitNonEmpty(l, '.');
    if forall k :: 0 <= k < |atoms| ==> Atom(atoms[k]) {
      JoinSplit(l, '.');
      assert DotAtomForm(l);
    }
    if DotAtomForm(l) {
      var w: seq<string> :| |w| >= 1 && (forall k :: 0 <= k < |w| ==> Atom(w[k])) && l == Join(w, '.');
      assert forall k :: 0 <= k < |w| ==> '.' !in w[k] by {
        forall k | 0 <= k < |w| ensures '.' !in w[k] {
          assert Atom(w[k]);
        }
      }
      SplitJoin(w, '.');
    }
  }

  lemma IpLiteralOkIsForm(d: string)
    ensures IpLiteralOk(d) <==> IpLiteralForm(d)
  {
    if IpLiteralOk(d) {
      var inner := d[1..|d| - 1];
      JoinSplit(inner, '.');
      assert d == "[" + inner + "]";
    }
    if IpLiteralForm(d) {
      var w: seq<string> :| |w| == 4 && (forall k :: 0 <= k < 4 ==> Octet(w[k])) && d == "[" + Join(w, '.') + "]";
      assert forall k :: 0 <= k < |w| ==> '.' !in w[k] by {
        forall k | 0 <= k < |w| ensures '.' !in w[k] {
          assert Octet(w[k]);
        }
      }
      SplitJoin(w, '.');
      assert d[1..|d| - 1] == Join(w, '.');
    }
  }

  /** Host labels hold no dots. */
  lemma HostLabelsDotFree(w: seq<string>)
    requires HostLabels(w)
    ensures forall k :: 0 <= k < |w| ==> '.' !in w[k]
  {
    forall k | 0 <= k < |w| ensures '.' !in w[k] {
      if k < |w| - 1 {
        assert HostLabel(w[k]);
      } else {
        assert TopLabel(w[k]);
      }
    }
  }

  lemma HostNameOkIsForm(d: string)
    ensures HostNameOk(d) <==> HostNameForm(d)
  {
    if HostNameOk(d) {
      JoinSplit(d, '.');
    }
    if HostNameForm(d) {
      var w: seq<string> :| HostLabels(w) && d == Join(w, '.');
      HostLabelsDotFree(w);
      SplitJoin(w, '.');
    }
  }

  /** The recogniser accepts exactly the texts the regular expression matches. */
  lemma RecogniseIsPatternMatch(s: string)
    ensures Recognise(s) <==> PatternMatch(s)
  {
    forall i | 0 <= i < |s|
      ensures (LocalOk(s[..i]) <==> LocalForm(s[..i])) && (DomainOk(s[i + 1..]) <==> DomainForm(s[i + 1..]))
    {
      LocalOkIsLocalForm(s[..i]);
      IpLiteralOkIsForm(s[i + 1..]);
      HostNameOkIsForm(s[i + 1..]);
    }
  }

  /** Every match holds an `@` ... */
  /** `validateEmail`'s string test is the regular expression applied to the
      lower-cased address. */
  lemma MatchesIsPatternMatch(email: string)
    ensures Matches(email) <==> PatternMatch(ToLower(email))
  {
    RecogniseIsPatternMatch(ToLower(email));
  }

  lemma MatchHasAt(email: string)
    ensures Matches(email) ==> '@' in email
  {
    if Matches(email) {
      var t := ToLower(email);
      var i :| 0 <= i < |t| && t[i] == '@' && LocalOk(t[..i]) && DomainOk(t[i + 1..]);
      assert email[i] == '@';
    }
  }

  /** ... and letter case never matters. */
  lemma MatchIgnoresCase(email: string)
    ensures Matches(email) <==> Matches(ToLower(email))
  {
    assert ToLower(ToLower(email)) == ToLower(email);
  }

  lemma ExampleLocalPart()
    ensures LocalOk("jo.do")
  {
    var atoms := ["jo", "do"];
    assert Atom("jo") && Atom("do");
    assert '.' !in atoms[0] && '.' !in atoms[1];
    SplitJoin(atoms, '.');
    assert "jo.do" == Join(atoms, '.');
    assert Split("jo.do", '.') == atoms;
  }

  lemma ExampleHostName()
    ensures DomainOk("ex.com")
  {
    var labels := ["ex", "com"];
    assert HostLabel("ex") && TopLabel("com");
    assert '.' !in labels[0] && '.' !in labels[1];
    SplitJoin(labels, '.');
    assert "ex.com" == Join(labels, '.');
    assert Split("ex.com", '.') == labels;
  }

  /** Letter case is ignored: a mixed-case dotted address matches. */
  lemma MatchExampleDotted()
    ensures Matches("Jo.Do@Ex.COM")
  {
    var t := "jo.do@ex.com";
    assert forall i :: 0 <= i < |t| ==> ToLower("Jo.Do@Ex.COM")[i] == t[i];
    assert ToLower("Jo.Do@Ex.COM") == t;
    ExampleLocalPart();
    ExampleHostName();
    assert t[5] == '@' && t[..5] == "jo.do" && t[6..] == "ex.com";
  }

  /** A quoted local part may hold a space. */
  lemma MatchExampleQuoted()
    ensures Matches("\"j d\"@ex.com")
  {
    var q := "\"j d\"@ex.com";
    ToLowerNoUpper(q);
    ExampleHostName();
    assert q[5] == '@' && q[6..] == "ex.com";
    assert QuotedForm(q[..5]);
  }

  /** A host without a top-level label does not match. */
  lemma NoMatchExampleBareHost()
    ensures !Matches("john@localhost")
  {
    var h := ToLower("john@localhost");
    assert h == "john@localhost";
    forall i | 0 <= i < |h| && h[i] == '@' ensures !DomainOk(h[i + 1..]) {
      assert i == 4;
      assert h[5..] == "localhost";
      SplitWithoutSeparator("localhost", '.');
    }
  }
}
