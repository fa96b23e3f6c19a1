/** The contact form's e-mail shape check, the regular expression
    `^[^\s@]+@[^\s@]+\.[^\s@]+$`, as a deterministic automaton that reads the
    address one character at a time, together with a proof that it accepts
    exactly the strings of the form A + "@" + B + "." + C with A, B and C
    non-empty and free of whitespace and '@'. */
module EmailShape {
  import opened Text

  /** A character allowed inside one of the three parts: `[^\s@]`. */
  predicate PartChar(c: char) {
    !IsSpace(c) && c != '@'
  }

  predicate PartChars(s: string) {
    forall k :: 0 <= k < |s| ==> PartChar(s[k])
  }

  /** A non-empty run of part characters: `[^\s@]+`. */
  predicate Part(s: string) {
    |s| > 0 && PartChars(s)
  }

  /** Reference meaning of the regular expression. */
  ghost predicate Shaped(s: string) {
    exists a: string, b: string, c: string ::
      Part(a) && Part(b) && Part(c) && s == a + "@" + b + "." + c
  }

  /** Automaton states, after reading some prefix of the address. */
  datatype State =
    | Start       // nothing read yet
    | Local       // one or more local-part characters, no '@' yet
    | AfterAt     // the '@' was just read
    | Domain      // domain characters, no usable '.' yet
    | DomainDot   // the last domain character is a '.' that may end B
    | Accepting   // A@B.C read completely
    | Rejected    // the address can no longer match

  function Step(q: State, c: char): State {
    if IsSpace(c) then Rejected
    else match q
      case Start => if c == '@' then Rejected else Local
      case Local => if c == '@' then AfterAt else Local
      case AfterAt => if c == '@' then Rejected else Domain
      case Domain => if c == '@' then Rejected else if c == '.' then DomainDot else Domain
      case DomainDot => if c == '@' then Rejected else Accepting
      case Accepting => if c == '@' then Rejected else Accepting
      case Rejected => Rejected
  }

  /** The state after reading all of `s`. */
  function Run(s: string): State {
    if |s| == 0 then Start else Step(Run(s[..|s| - 1]), s[|s| - 1])
  }

  /** `validateEmail`: the regular expression test. */
  function ValidateEmail(s: string): (ok: bool)
    ensures ok <==> Shaped(s)
  {
    RunClassifies(s);
    ShapedIffAccepting(s);
    Run(s) == Accepting
  }

  /** Index of the first '@' in `s`, or `|s|` if there is none. */
  function FirstAt(s: string): (i: nat)
    ensures i <= |s|
    ensures forall k :: 0 <= k < i ==> s[k] != '@'
    ensures i < |s| ==> s[i] == '@'
  {
    if |s| == 0 then 0
    else if s[0] == '@' then 0
    else 1 + FirstAt(s[1..])
  }

  predicate NoSpace(s: string) {
    forall k :: 0 <= k < |s| ==> !IsSpace(s[k])
  }

  /** Domain text (after the '@') contains a '.' with a character on each side. */
  predicate InnerDot(r: string) {
    exists k :: 0 < k < |r| - 1 && r[k] == '.'
  }

  /** Which automaton state a domain text (already known to be free of
      whitespace and '@') leads to. */
  function DomainState(r: string): State {
    if |r| == 0 then AfterAt
    else if InnerDot(r) then Accepting
    else if |r| >= 2 && r[|r| - 1] == '.' then DomainDot
    else Domain
  }

  /** Closed-form description of the state reached after reading `s`. */
  function Classify(s: string): State {
    if |s| == 0 then Start
    else
      var i := FirstAt(s);
      if i == |s| then (if NoSpace(s) then Local else Rejected)
      else if i == 0 || !NoSpace(s[..i]) || !PartChars(s[i + 1..]) then Rejected
      else DomainState(s[i + 1..])
  }

  lemma {:induction false} FirstAtSnoc(s: string, c: char)
    ensures FirstAt(s + [c]) == if FirstAt(s) < |s| then FirstAt(s) else if c == '@' then |s| else |s| + 1
  {
    var i := FirstAt(s + [c]);
    var j := FirstAt(s);
    if j < |s| {
      assert (s + [c])[j] == '@';
    } else if c == '@' {
      assert (s + [c])[|s|] == '@';
      assert forall k :: 0 <= k < |s| ==> (s + [c])[k] == s[k];
    } else {
      assert forall k :: 0 <= k < |s| ==> (s + [c])[k] == s[k];
    }
  }

  lemma InnerDotSnoc(r: string, c: char)
    ensures InnerDot(r + [c]) <==> InnerDot(r) || (|r| >= 2 && r[|r| - 1] == '.')
  {
    var r' := r + [c];
    if InnerDot(r') {
      var k :| 0 < k < |r'| - 1 && r'[k] == '.';
      if k < |r| - 1 {
        assert r[k] == '.';
      }
    }
    if InnerDot(r) {
      var k :| 0 < k < |r| - 1 && r[k] == '.';
      assert r'[k] == '.';
    }
    if |r| >= 2 && r[|r| - 1] == '.' {
      assert r'[|r| - 1] == '.';
    }
  }

  lemma PartCharsSnoc(r: string, c: char)
    ensures PartChars(r + [c]) <==> PartChars(r) && PartChar(c)
  {
    var r' := r + [c];
    assert forall k :: 0 <= k < |r| ==> r'[k] == r[k];
    assert r'[|r|] == c;
  }

  /** The domain part grows by one allowed character. */
  lemma DomainStateSnoc(r: string, c: char)
    requires PartChar(c)
    ensures DomainState(r + [c]) == Step(DomainState(r), c)
  {
    InnerDotSnoc(r, c);
    if |r| > 0 {
      assert (r + [c])[|r| - 1] == r[|r| - 1];
    }
  }

  /** A whitespace character or a second '@' in the domain part rejects. */
  lemma DomainStateRejects(r: string, c: char)
    requires !PartChar(c)
    ensures Step(DomainState(r), c) == Rejected
  {
  }

  /** Classification of an input whose first '@' is at index `i`. */
  lemma ClassifyWithAt(s: string, i: nat)
    requires i < |s| && FirstAt(s) == i
    ensures Classify(s) ==
      if i == 0 || !NoSpace(s[..i]) || !PartChars(s[i + 1..]) then Rejected
      else DomainState(s[i + 1..])
  {
  }

  lemma SnocSlices(p: string, c: char, i: nat)
    requires i < |p|
    ensures (p + [c])[..i] == p[..i]
    ensures (p + [c])[i + 1..] == p[i + 1..] + [c]
  {
  }

  /** Reading one more character after the first '@' has been seen. */
  lemma {:induction false} SnocInDomain(p: string, c: char)
    requires FirstAt(p) < |p|
    ensures Classify(p + [c]) == Step(Classify(p), c)
  {
    var i := FirstAt(p);
    FirstAtSnoc(p, c);
    ClassifyWithAt(p, i);
    ClassifyWithAt(p + [c], i);
    SnocSlices(p, c, i);
    var r := p[i + 1..];
    PartCharsSnoc(r, c);
    if PartChar(c) {
      DomainStateSnoc(r, c);
    } else {
      DomainStateRejects(r, c);
    }
  }

  /** Reading the first '@'. */
  lemma {:induction false} SnocFirstAt(p: string)
    requires FirstAt(p) == |p|
    ensures Classify(p + ['@']) == Step(Classify(p), '@')
  {
    var s := p + ['@'];
    FirstAtSnoc(p, '@');
    assert s[..|p|] == p;
    assert s[|p| + 1..] == [];
  }

  /** Classification of an input with no '@'. */
  lemma ClassifyWithoutAt(s: string)
    requires FirstAt(s) == |s|
    ensures Classify(s) == if |s| == 0 then Start else if NoSpace(s) then Local else Rejected
  {
  }

  lemma NoSpaceSnoc(p: string, c: char)
    ensures NoSpace(p + [c]) <==> NoSpace(p) && !IsSpace(c)
  {
    var s := p + [c];
    assert forall k :: 0 <= k < |p| ==> s[k] == p[k];
    assert s[|p|] == c;
  }

  /** Reading a character other than '@' before any '@'. */
  lemma {:induction false} SnocNoAt(p: string, c: char)
    requires FirstAt(p) == |p| && c != '@'
    ensures Classify(p + [c]) == Step(Classify(p), c)
  {
    FirstAtSnoc(p, c);
    ClassifyWithoutAt(p);
    ClassifyWithoutAt(p + [c]);
    NoSpaceSnoc(p, c);
  }

  lemma ClassifySnoc(p: string, c: char)
    ensures Classify(p + [c]) == Step(Classify(p), c)
  {
    if FirstAt(p) < |p| {
      SnocInDomain(p, c);
    } else if c == '@' {
      SnocFirstAt(p);
    } else {
      SnocNoAt(p, c);
    }
  }

  /** The automaton's state is the closed-form classification, for every input. */
  lemma {:induction false} RunClassifies(s: string)
    ensures Run(s) == Classify(s)
    decreases |s|
  {
    if |s| > 0 {
      var p := s[..|s| - 1];
      var c := s[|s| - 1];
      assert s == p + [c];
      RunClassifies(p);
      ClassifySnoc(p, c);
    }
  }

  /** Acceptance by the closed form is exactly the reference shape. */
  lemma ShapedIffAccepting(s: string)
    ensures Shaped(s) <==> Classify(s) == Accepting
  {
    if Classify(s) == Accepting {
      AcceptingIsShaped(s);
    }
    if Shaped(s) {
      var a: string, b: string, c: string :|
        Part(a) && Part(b) && Part(c) && s == a + "@" + b + "." + c;
      ShapedIsAccepting(s, a, b, c);
    }
  }

  lemma AcceptingIsShaped(s: string)
    requires Classify(s) == Accepting
    ensures Shaped(s)
  {
    var i := FirstAt(s);
    ClassifyWithAt(s, i);
    var r := s[i + 1..];
    var k :| 0 < k < |r| - 1 && r[k] == '.';
    LocalPart(s, i);
    DomainParts(r, k);
    Assemble(s, i, k);
    ShapedByParts(s, s[..i], r[..k], r[k + 1..]);
  }

  /** An '@' at index i and a '.' at index k of the text after it cut `s` into three. */
  lemma Assemble(s: string, i: nat, k: nat)
    requires i < |s| && s[i] == '@'
    requires k < |s[i + 1..]| && s[i + 1..][k] == '.'
    ensures s == s[..i] + "@" + s[i + 1..][..k] + "." + s[i + 1..][k + 1..]
  {
    var r := s[i + 1..];
    assert r == r[..k] + "." + r[k + 1..];
    assert s == s[..i] + "@" + r;
  }

  lemma ShapedByParts(s: string, a: string, b: string, c: string)
    requires Part(a) && Part(b) && Part(c) && s == a + "@" + b + "." + c
    ensures Shaped(s)
  {
  }

  /** The text before the first '@' of an accepted address is a part. */
  lemma LocalPart(s: string, i: nat)
    requires 0 < i < |s| && FirstAt(s) == i && NoSpace(s[..i])
    ensures Part(s[..i])
  {
  }

  /** A '.' strictly inside a domain text splits it into two parts. */
  lemma DomainParts(r: string, k: nat)
    requires PartChars(r) && 0 < k < |r| - 1 && r[k] == '.'
    ensures Part(r[..k]) && Part(r[k + 1..])
    ensures r == r[..k] + "." + r[k + 1..]
  {
  }

  lemma ShapedIsAccepting(s: string, a: string, b: string, c: string)
    requires Part(a) && Part(b) && Part(c) && s == a + "@" + b + "." + c
    ensures Classify(s) == Accepting
  {
    var r := b + "." + c;
    assert s == a + "@" + r;
    assert s[|a|] == '@';
    assert forall k :: 0 <= k < |a| ==> s[k] == a[k];
    var i := FirstAt(s);
    assert i == |a|;
    assert s[..i] == a;
    assert s[i + 1..] == r;
    assert r[|b|] == '.';
    assert PartChars(r) by {
      forall k | 0 <= k < |r| ensures PartChar(r[k]) {
        if k < |b| {
          assert r[k] == b[k];
        } else if k > |b| {
          assert r[k] == c[k - |b| - 1];
        }
      }
    }
    assert InnerDot(r);
  }

  /** A matching address contains an '@'. */
  lemma ShapedHasAt(s: string)
    ensures Shaped(s) ==> exists k :: 0 <= k < |s| && s[k] == '@'
  {
    if Shaped(s) {
      var a: string, b: string, c: string :|
        Part(a) && Part(b) && Part(c) && s == a + "@" + b + "." + c;
      assert s[|a|] == '@';
    }
  }

  /** A matching address is never blank: it has a non-whitespace character. */
  lemma ValidNotBlank(s: string)
    requires ValidateEmail(s)
    ensures !AllSpace(s)
  {
    var a: string, b: string, c: string :|
      Part(a) && Part(b) && Part(c) && s == a + "@" + b + "." + c;
    assert s[0] == a[0];
  }
}
