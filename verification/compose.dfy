/**
  The compose page: reading a recipient file (`handleFileUpload`) and building
  the scheduling request (`handleSend`). A Dafny `char` is a Unicode scalar
  value, while JavaScript strings are sequences of UTF-16 code units; the two
  agree on every character outside the surrogate range, and every character
  the page tests for lies there.
*/
module Compose {
  import opened Domain
  import opened Seqs
  import Scheduling

  // ---------------------------------------------------------------------------
  // Splitting the file text on runs of separators (`split(/[\n,;]+/)`)
  // ---------------------------------------------------------------------------

  predicate IsSeparator(c: char)
  {
    c == '\n' || c == ',' || c == ';'
  }

  predicate NoSeparator(s: string)
  {
    forall i :: 0 <= i < |s| ==> !IsSeparator(s[i])
  }

  /** The characters of `s` with every separator deleted. */
  function RemoveSeparators(s: string): string
  {
    if s == [] then []
    else if IsSeparator(s[0]) then RemoveSeparators(s[1..])
    else [s[0]] + RemoveSeparators(s[1..])
  }

  function Concat(pieces: seq<string>): string
  {
    if pieces == [] then [] else pieces[0] + Concat(pieces[1..])
  }

  /** The pieces of `s` between maximal runs of separators. */
  function Split(s: string): (pieces: seq<string>)
    ensures |pieces| >= 1
    decreases |s|
  {
    if s == [] then [[]]
    else if IsSeparator(s[0]) then
      if |s| > 1 && IsSeparator(s[1]) then Split(s[1..]) else [[]] + Split(s[1..])
    else
      var p := Split(s[1..]);
      [[s[0]] + p[0]] + p[1..]
  }

  /** No piece contains a separator. */
  lemma {:induction false} SplitPiecesArePlain(s: string)
    ensures forall k :: 0 <= k < |Split(s)| ==> NoSeparator(Split(s)[k])
    decreases |s|
  {
    if s != [] {
      SplitPiecesArePlain(s[1..]);
      if !IsSeparator(s[0]) {
        var p := Split(s[1..]);
        assert NoSeparator(p[0]);
        assert NoSeparator([s[0]] + p[0]);
      }
    }
  }

  /** Text without separators is one piece, itself; text with a separator is several pieces. */
  lemma {:induction false} SplitSingle(s: string)
    ensures NoSeparator(s) <==> |Split(s)| == 1
    ensures NoSeparator(s) ==> Split(s) == [s]
    decreases |s|
  {
    if s != [] {
      var t := s[1..];
      SplitSingle(t);
      if NoSeparator(t) && !IsSeparator(s[0]) {
        forall i | 0 <= i < |s| ensures !IsSeparator(s[i]) {
          if i > 0 { assert s[i] == t[i - 1]; }
        }
        assert s == [s[0]] + t;
      }
      if !NoSeparator(t) {
        var i :| 0 <= i < |t| && IsSeparator(t[i]);
        assert s[i + 1] == t[i];
      }
    }
  }

  /**
    A leading run of separators yields an empty first piece, a trailing run an
    empty last piece, and the empty text a single empty piece; every other piece
    is non-empty.
  */
  lemma {:induction false} SplitEmptyPieces(s: string)
    ensures Split(s)[0] == [] <==> s == [] || IsSeparator(s[0])
    ensures Split(s)[|Split(s)| - 1] == [] <==> s == [] || IsSeparator(s[|s| - 1])
    ensures forall k :: 0 < k < |Split(s)| - 1 ==> Split(s)[k] != []
    decreases |s|
  {
    if s != [] {
      var t := s[1..];
      SplitEmptyPieces(t);
      SplitSingle(t);
      if t != [] {
        assert s[|s| - 1] == t[|t| - 1];
      }
    }
  }

  /** Gluing the pieces back together gives the text with its separators deleted. */
  lemma {:induction false} SplitKeepsEveryOtherCharacter(s: string)
    ensures Concat(Split(s)) == RemoveSeparators(s)
    decreases |s|
  {
    if s != [] {
      var t := s[1..];
      var p := Split(t);
      SplitKeepsEveryOtherCharacter(t);
      if IsSeparator(s[0]) {
        assert ([[]] + p)[1..] == p;
      } else {
        var r := [[s[0]] + p[0]] + p[1..];
        assert r[1..] == p[1..];
        assert Concat(p) == p[0] + Concat(p[1..]);
        assert Concat(r) == ([s[0]] + p[0]) + Concat(p[1..]);
      }
    }
  }

  /** A non-empty run of separators, such as ",", ",\n" or ";;". */
  predicate IsSeparatorRun(r: string)
  {
    r != [] && forall i :: 0 <= i < |r| ==> IsSeparator(r[i])
  }

  /** The pieces glued back together, with the run `runs[k]` between piece `k` and piece `k + 1`. */
  function Join(pieces: seq<string>, runs: seq<string>): string
    requires |pieces| >= 1 && |runs| == |pieces| - 1
    decreases |pieces|
  {
    if |pieces| == 1 then pieces[0] else pieces[0] + runs[0] + Join(pieces[1..], runs[1..])
  }

  /** A whole run of separators in front of a non-separator yields one empty piece, however long the run. */
  lemma {:induction false} SplitAfterRun(r: string, rest: string)
    requires IsSeparatorRun(r)
    requires rest == [] || !IsSeparator(rest[0])
    ensures Split(r + rest) == [[]] + Split(rest)
    decreases |r|
  {
    var s := r + rest;
    assert s[0] == r[0];
    assert s[1..] == r[1..] + rest;
    if |r| > 1 {
      assert s[1] == r[1];
      SplitAfterRun(r[1..], rest);
    } else {
      assert r[1..] + rest == rest;
    }
  }

  /** A run of separators after a separator-free piece ends that piece and starts the split of the rest. */
  lemma {:induction false} SplitAfterPiece(x: string, r: string, rest: string)
    requires NoSeparator(x) && IsSeparatorRun(r)
    requires rest == [] || !IsSeparator(rest[0])
    ensures Split(x + r + rest) == [x] + Split(rest)
    decreases |x|
  {
    if x == [] {
      assert x + r + rest == r + rest;
      SplitAfterRun(r, rest);
    } else {
      var s := x + r + rest;
      assert s[0] == x[0];
      assert s[1..] == x[1..] + r + rest;
      SplitAfterPiece(x[1..], r, rest);
      assert [x[0]] + x[1..] == x;
    }
  }

  /**
    Splitting undoes joining, whatever runs of separators are put between the
    pieces, for pieces that `Split` could have produced.
  */
  lemma {:induction false} SplitJoin(pieces: seq<string>, runs: seq<string>)
    requires |pieces| >= 1 && |runs| == |pieces| - 1
    requires forall k :: 0 <= k < |runs| ==> IsSeparatorRun(runs[k])
    requires forall k :: 0 <= k < |pieces| ==> NoSeparator(pieces[k])
    requires forall k :: 0 < k < |pieces| - 1 ==> pieces[k] != []
    ensures Split(Join(pieces, runs)) == pieces
    decreases |pieces|
  {
    if |pieces| == 1 {
      SplitSingle(pieces[0]);
    } else {
      var rest := pieces[1..];
      SplitJoin(rest, runs[1..]);
      JoinStart(rest, runs[1..]);
      SplitAfterPiece(pieces[0], runs[0], Join(rest, runs[1..]));
      assert [pieces[0]] + rest == pieces;
    }
  }

  /** A join starts with the first character of its first piece. */
  lemma JoinStart(pieces: seq<string>, runs: seq<string>)
    requires |pieces| >= 1 && |runs| == |pieces| - 1
    requires forall k :: 0 <= k < |pieces| ==> NoSeparator(pieces[k])
    requires |pieces| > 1 ==> pieces[0] != []
    ensures Join(pieces, runs) == [] || !IsSeparator(Join(pieces, runs)[0])
  {
    if |pieces| > 1 {
      assert Join(pieces, runs)[0] == pieces[0][0];
    }
  }

  /** The splitting of a CSV line end: ",\n" between two addresses is one boundary. */
  lemma SplitMixedRun()
    ensures Split("a@b.c,\nd@e.f") == ["a@b.c", "d@e.f"]
  {
    SplitJoin(["a@b.c", "d@e.f"], [",\n"]);
    assert Join(["a@b.c", "d@e.f"], [",\n"]) == "a@b.c,\nd@e.f";
  }

  // ---------------------------------------------------------------------------
  // Trimming (`String.prototype.trim`) and the `\s` class
  // ---------------------------------------------------------------------------

  /** ECMAScript white space and line terminators: what `trim` removes and what `\s` matches. */
  const SpaceChars: set<char> := {
    '\U{0009}', '\U{000A}', '\U{000B}', '\U{000C}', '\U{000D}', '\U{0020}', '\U{00A0}', '\U{1680}',
    '\U{2000}', '\U{2001}', '\U{2002}', '\U{2003}', '\U{2004}', '\U{2005}', '\U{2006}', '\U{2007}',
    '\U{2008}', '\U{2009}', '\U{200A}', '\U{2028}', '\U{2029}', '\U{202F}', '\U{205F}', '\U{3000}',
    '\U{FEFF}'}

  predicate IsSpace(c: char)
  {
    c in SpaceChars
  }

  predicate AllSpace(s: string)
  {
    forall i :: 0 <= i < |s| ==> IsSpace(s[i])
  }

  /** `s` without its leading white space. */
  function TrimStart(s: string): (r: string)
    ensures |r| <= |s| && r == s[|s| - |r|..]
    ensures forall k :: 0 <= k < |s| - |r| ==> IsSpace(s[k])
    ensures r == [] || !IsSpace(r[0])
    decreases |s|
  {
    if s != [] && IsSpace(s[0]) then TrimStart(s[1..]) else s
  }

  /** `s` without its trailing white space. */
  function TrimEnd(s: string): (r: string)
    ensures |r| <= |s| && r == s[..|r|]
    ensures forall k :: |r| <= k < |s| ==> IsSpace(s[k])
    ensures r == [] || !IsSpace(r[|r| - 1])
    decreases |s|
  {
    if s != [] && IsSpace(s[|s| - 1]) then TrimEnd(s[..|s| - 1]) else s
  }

  /** `s` with the white space at both ends removed. */
  function Trim(s: string): (r: string)
    ensures |r| <= |s|
    ensures r == [] || (!IsSpace(r[0]) && !IsSpace(r[|r| - 1]))
  {
    TrimEnd(TrimStart(s))
  }

  /** What `Trim` keeps is a middle slice of `s`: it starts where `TrimStart` starts. */
  lemma TrimIsMiddle(s: string)
    ensures |s| - |TrimStart(s)| + |Trim(s)| <= |s|
    ensures forall k :: 0 <= k < |Trim(s)| ==> Trim(s)[k] == s[|s| - |TrimStart(s)| + k]
  {
    var t := TrimStart(s);
    var r := TrimEnd(t);
    PrefixOfSuffix(s, t, r);
  }

  /** A prefix `r` of a suffix `t` of `s` is the slice of `s` that starts where `t` does. */
  lemma PrefixOfSuffix(s: string, t: string, r: string)
    requires |t| <= |s| && t == s[|s| - |t|..]
    requires |r| <= |t| && r == t[..|r|]
    ensures forall k :: 0 <= k < |r| ==> r[k] == s[|s| - |t| + k]
  {
  }

  /** Everything before and after what `Trim` keeps is white space. */
  lemma TrimMargins(s: string)
    ensures forall k :: 0 <= k < |s| - |TrimStart(s)| ==> IsSpace(s[k])
    ensures forall k :: |s| - |TrimStart(s)| + |Trim(s)| <= k < |s| ==> IsSpace(s[k])
  {
    var t := TrimStart(s);
    var r := TrimEnd(t);
    var i := |s| - |t|;
    forall k | i + |r| <= k < |s| ensures IsSpace(s[k]) {
      assert t[k - i] == s[k];
    }
  }

  /** Leading white space in front of a string that starts with something else is all `TrimStart` drops. */
  lemma {:induction false} TrimStartOfPadded(a: string, c: string)
    requires AllSpace(a)
    requires c == [] || !IsSpace(c[0])
    ensures TrimStart(a + c) == c
    decreases |a|
  {
    if a != [] {
      assert (a + c)[1..] == a[1..] + c;
      TrimStartOfPadded(a[1..], c);
    } else {
      assert a + c == c;
    }
  }

  lemma {:induction false} TrimEndOfPadded(c: string, b: string)
    requires AllSpace(b)
    requires c == [] || !IsSpace(c[|c| - 1])
    ensures TrimEnd(c + b) == c
    decreases |b|
  {
    if b != [] {
      var bInit := b[..|b| - 1];
      assert (c + b)[..|c + b| - 1] == c + bInit;
      TrimEndOfPadded(c, bInit);
    } else {
      assert c + b == c;
    }
  }

  /**
    Trimming recovers the core of any padded string: whatever white space is put
    around a string without white space at its ends, `Trim` removes exactly that.
  */
  lemma TrimRemovesPadding(a: string, c: string, b: string)
    requires AllSpace(a) && AllSpace(b)
    requires c == [] || (!IsSpace(c[0]) && !IsSpace(c[|c| - 1]))
    ensures Trim(a + c + b) == c
  {
    if c == [] {
      assert a + c + b == a + b;
      assert AllSpace(a + b);
      AllSpaceTrimsToEmpty(a + b);
    } else {
      assert a + c + b == a + (c + b);
      TrimStartOfPadded(a, c + b);
      TrimEndOfPadded(c, b);
    }
  }

  lemma {:induction false} AllSpaceTrimsToEmpty(s: string)
    requires AllSpace(s)
    ensures TrimStart(s) == []
    ensures Trim(s) == []
    decreases |s|
  {
    if s != [] {
      AllSpaceTrimsToEmpty(s[1..]);
    }
  }

  /** Trimming twice is trimming once. */
  lemma TrimIdempotent(s: string)
    ensures Trim(Trim(s)) == Trim(s)
  {
    var r := Trim(s);
    assert TrimStart(r) == r;
    assert TrimEnd(r) == r;
  }

  // ---------------------------------------------------------------------------
  // The address pattern `^[^\s@]+@[^\s@]+\.[^\s@]+$`
  // ---------------------------------------------------------------------------

  /** A character of the class `[^\s@]`. */
  predicate IsPlain(c: char)
  {
    !IsSpace(c) && c != '@'
  }

  /** A match of `[^\s@]+`. */
  predicate PlainRun(s: string)
  {
    |s| > 0 && forall i :: 0 <= i < |s| ==> IsPlain(s[i])
  }

  /** `s` matches the pattern: a plain run, '@', a plain run, '.', a plain run. */
  predicate IsValidEmail(s: string): (valid: bool)
    ensures valid ==> 5 <= |s| && '@' in s && '.' in s
  {
    exists at, dot :: 0 < at && at + 1 < dot && dot + 1 < |s|
      && s[at] == '@' && s[dot] == '.'
      && PlainRun(s[..at]) && PlainRun(s[at + 1..dot]) && PlainRun(s[dot + 1..])
  }

  /**
    The pattern stated without backtracking: no white space, exactly one '@' and
    not in front, and a '.' after it that is neither right after the '@' nor last.
  */
  predicate HasEmailShape(s: string)
  {
    && (forall i :: 0 <= i < |s| ==> !IsSpace(s[i]))
    && '@' in s
    && var at := FirstIndex(s, '@');
    && 0 < at
    && '@' !in s[at + 1..]
    && at + 3 <= |s|
    && '.' in s[at + 2..|s| - 1]
  }

  lemma ValidEmailHasShape(s: string)
    requires IsValidEmail(s)
    ensures HasEmailShape(s)
  {
    var at, dot :| 0 < at && at + 1 < dot && dot + 1 < |s|
      && s[at] == '@' && s[dot] == '.'
      && PlainRun(s[..at]) && PlainRun(s[at + 1..dot]) && PlainRun(s[dot + 1..]);
    PlainOutsideMarks(s, at, dot);
    var first := FirstIndex(s, '@');
    assert first == at;
    assert s[at + 2..|s| - 1][dot - at - 2] == '.';
  }

  /** In a match, every character other than the '@' and the '.' comes from a plain run. */
  lemma PlainOutsideMarks(s: string, at: nat, dot: nat)
    requires at < dot < |s| && s[at] == '@' && s[dot] == '.'
    requires PlainRun(s[..at]) && PlainRun(s[at + 1..dot]) && PlainRun(s[dot + 1..])
    ensures forall i :: 0 <= i < |s| ==> !IsSpace(s[i]) && (i != at ==> s[i] != '@')
  {
    forall i | 0 <= i < |s| ensures !IsSpace(s[i]) && (i != at ==> s[i] != '@') {
      if i < at { assert s[..at][i] == s[i]; }
      else if at < i < dot { assert s[at + 1..dot][i - at - 1] == s[i]; }
      else if dot < i { assert s[dot + 1..][i - dot - 1] == s[i]; }
    }
  }

  lemma ShapedEmailIsValid(s: string)
    requires HasEmailShape(s)
    ensures IsValidEmail(s)
  {
    var at := FirstIndex(s, '@');
    var d :| 0 <= d < |s[at + 2..|s| - 1]| && s[at + 2..|s| - 1][d] == '.';
    var dot := at + 2 + d;
    assert s[dot] == '.';
    forall i | 0 <= i < |s| && i != at ensures IsPlain(s[i]) {
      if i < at { assert s[i] in s[..at]; }
      else { assert s[i] == s[at + 1..][i - at - 1]; }
    }
    assert PlainRun(s[..at]);
    assert PlainRun(s[at + 1..dot]);
    assert PlainRun(s[dot + 1..]);
  }

  /** The pattern and its backtracking-free reading accept the same strings. */
  lemma EmailPatternShape(s: string)
    ensures IsValidEmail(s) <==> HasEmailShape(s)
  {
    if IsValidEmail(s) { ValidEmailHasShape(s); }
    if HasEmailShape(s) { ShapedEmailIsValid(s); }
  }

  // ---------------------------------------------------------------------------
  // handleFileUpload
  // ---------------------------------------------------------------------------

  lemma TrimKeepsNoSeparator(p: string)
    requires NoSeparator(p)
    ensures NoSeparator(Trim(p))
  {
    var t := TrimStart(p);
    forall j | 0 <= j < |t| ensures !IsSeparator(t[j]) {
      assert t[j] == p[|p| - |t| + j];
    }
    var r := TrimEnd(t);
    forall j | 0 <= j < |r| ensures !IsSeparator(r[j]) {
      assert r[j] == t[j];
    }
  }

  /** The filter callback: a non-empty string that matches the pattern. */
  predicate Accepted(e: string)
  {
    e != [] && IsValidEmail(e)
  }

  function TrimEach(pieces: seq<string>): (trimmed: seq<string>)
    ensures |trimmed| == |pieces|
    ensures forall k :: 0 <= k < |pieces| ==> trimmed[k] == Trim(pieces[k])
  {
    seq(|pieces|, k requires 0 <= k < |pieces| => Trim(pieces[k]))
  }

  /** The addresses a file contributes: the trimmed pieces of its text that match the pattern, in file order. */
  function ParseUpload(text: string): (emails: seq<string>)
    ensures forall k :: 0 <= k < |emails| ==> IsValidEmail(emails[k])
  {
    Filter(Accepted, TrimEach(Split(text)))
  }

  /**
    A file contributes exactly its trimmed pieces that match the pattern: each
    such piece is taken, every address taken is one of them and holds no
    separator, and the addresses keep the order of the pieces.
  */
  lemma ParseUploadTakesMatchingPieces(text: string)
    ensures forall k :: 0 <= k < |Split(text)| && IsValidEmail(Trim(Split(text)[k])) ==> Trim(Split(text)[k]) in ParseUpload(text)
    ensures forall k :: 0 <= k < |ParseUpload(text)| ==>
      ParseUpload(text)[k] in TrimEach(Split(text)) && NoSeparator(ParseUpload(text)[k])
    ensures IsSubsequence(ParseUpload(text), TrimEach(Split(text)))
  {
    var pieces := Split(text);
    var trimmed := TrimEach(pieces);
    FilterIsSubsequence(Accepted, trimmed);
    SplitPiecesArePlain(text);
    forall k | 0 <= k < |pieces| && IsValidEmail(Trim(pieces[k])) ensures Trim(pieces[k]) in ParseUpload(text) {
      assert Accepted(trimmed[k]);
    }
    forall k | 0 <= k < |trimmed| ensures NoSeparator(trimmed[k]) {
      TrimKeepsNoSeparator(pieces[k]);
    }
  }

  /**
    A file contributes every copy of each matching trimmed piece: an address
    occurs in the result exactly as often as among the trimmed pieces, and a
    string the pattern rejects not at all.
  */
  lemma ParseUploadCounts(text: string, x: string)
    ensures multiset(ParseUpload(text))[x] == if IsValidEmail(x) then multiset(TrimEach(Split(text)))[x] else 0
  {
    FilterCount(Accepted, TrimEach(Split(text)), x);
  }

  /** The recipient list after a file is read: the earlier entries, then the file's addresses; nothing is deduplicated yet. */
  function AfterUpload(prev: seq<string>, text: string): (list: seq<string>)
    ensures |list| == |prev| + |ParseUpload(text)|
    ensures list[..|prev|] == prev
    ensures list[|prev|..] == ParseUpload(text)
    ensures forall k :: |prev| <= k < |list| ==> IsValidEmail(list[k])
  {
    prev + ParseUpload(text)
  }

  // ---------------------------------------------------------------------------
  // handleSend
  // ---------------------------------------------------------------------------

  /** A numeric form field: still the initial empty string, or a number typed in. */
  datatype NumField = Blank | Num(value: real)

  /** `Number(field)`: the empty string converts to 0. */
  function NumberValue(f: NumField): real
  {
    match f
    case Blank => 0.0
    case Num(v) => v
  }

  /** The manual "to" address, trimmed, when it matches the pattern. */
  function ManualAddress(to: string): (m: Option<string>)
    ensures m.Some? <==> IsValidEmail(Trim(to))
    ensures m.Some? ==> m.value == Trim(to)
  {
    var t := Trim(to);
    if t != [] && IsValidEmail(t) then Some(t) else None
  }

  /** The recipients actually posted: the uploaded list plus the valid manual address, deduplicated. */
  function FinalRecipients(uploaded: seq<string>, to: string): (r: seq<string>)
    ensures |r| <= |uploaded| + 1
    ensures uploaded == [] && !IsValidEmail(Trim(to)) ==> r == []
  {
    Dedup(uploaded + (if ManualAddress(to).Some? then [ManualAddress(to).value] else []))
  }

  /** The posted list holds exactly the uploaded addresses and the valid manual address. */
  lemma FinalRecipientsMembers(uploaded: seq<string>, to: string)
    ensures forall x :: x in FinalRecipients(uploaded, to) <==> x in uploaded || (IsValidEmail(Trim(to)) && x == Trim(to))
  {
    var manual := if ManualAddress(to).Some? then [ManualAddress(to).value] else [];
    var all := uploaded + manual;
    var r := FinalRecipients(uploaded, to);
    assert r == Dedup(all);
    DedupSameElements(all);
    forall x ensures x in r <==> x in all {
      if x in all {
        var k :| 0 <= k < |all| && all[k] == x;
      }
      if x in r {
        var k :| 0 <= k < |r| && r[k] == x;
      }
    }
  }

  /**
    The posted list holds every uploaded address and the valid manual address,
    nothing else, each once; it is empty exactly when nothing was uploaded and
    the manual address is missing or invalid.
  */
  lemma FinalRecipientsContents(uploaded: seq<string>, to: string)
    ensures var r := FinalRecipients(uploaded, to);
      && NoDuplicates(r)
      && (forall k :: 0 <= k < |uploaded| ==> uploaded[k] in r)
      && (IsValidEmail(Trim(to)) ==> Trim(to) in r)
      && (forall k :: 0 <= k < |r| ==> r[k] in uploaded || (IsValidEmail(Trim(to)) && r[k] == Trim(to)))
      && (r == [] <==> uploaded == [] && !IsValidEmail(Trim(to)))
  {
    var r := FinalRecipients(uploaded, to);
    DedupNoDuplicates(uploaded + (if ManualAddress(to).Some? then [ManualAddress(to).value] else []));
    FinalRecipientsMembers(uploaded, to);
    if r != [] {
      assert r[0] in r;
    }
  }

  /** A string as the posted JSON array of addresses. */
  function Addresses(xs: seq<string>): (vs: seq<Scheduling.RecipientValue>)
    ensures |vs| == |xs|
    ensures forall k :: 0 <= k < |xs| ==> vs[k] == Scheduling.Address(xs[k])
  {
    seq(|xs|, k requires 0 <= k < |xs| => Scheduling.Address(xs[k]))
  }

  datatype SendOutcome = NoSenderAlert | NoRecipientsAlert | Post(request: Scheduling.Request)

  /**
    The send button: no request without a sender or without any recipient;
    otherwise one POST whose numeric fields are `Number` of the form fields and
    whose `sendAt` is the chosen schedule time, if any.
  */
  function HandleSend(
    senderId: Option<string>, uploaded: seq<string>, to: string, subject: string, body: string,
    delay: NumField, hourlyLimit: NumField, scheduleTime: Option<int>): (o: SendOutcome)
    ensures o == NoSenderAlert <==> senderId.None? || senderId.value == []
    ensures o == NoRecipientsAlert <==> senderId.Some? && senderId.value != [] && uploaded == [] && !IsValidEmail(Trim(to))
    ensures o.Post? ==>
      && o.request.senderId == senderId.value
      && o.request.recipients == Scheduling.ArrayOf(Addresses(FinalRecipients(uploaded, to)))
      && |FinalRecipients(uploaded, to)| > 0
      && o.request.subject == subject && o.request.body == body
      && o.request.sendAt == scheduleTime
      && o.request.delay == Some(NumberValue(delay))
      && o.request.hourlyLimit == Some(NumberValue(hourlyLimit))
  {
    FinalRecipientsContents(uploaded, to);
    if senderId.None? || senderId.value == [] then NoSenderAlert
    else
      var recipients := FinalRecipients(uploaded, to);
      if |recipients| == 0 then NoRecipientsAlert
      else
        Post(Scheduling.Request(senderId.value, Scheduling.ArrayOf(Addresses(recipients)), subject, body,
                                scheduleTime, Some(NumberValue(delay)), Some(NumberValue(hourlyLimit))))
  }

  /**
    A posted request for a known sender is admitted: one message per distinct
    recipient, every uploaded address and the valid manual address among them.
  */
  lemma PostedRequestIsAdmitted(
    now: int, senders: map<string, Sender>, nextId: nat,
    senderId: Option<string>, uploaded: seq<string>, to: string, subject: string, body: string,
    delay: NumField, hourlyLimit: NumField, scheduleTime: Option<int>)
    requires now >= 0
    requires senderId.Some? && senderId.value != [] && senderId.value in senders
    requires uploaded != [] || IsValidEmail(Trim(to))
    ensures var req := HandleSend(senderId, uploaded, to, subject, body, delay, hourlyLimit, scheduleTime).request;
      var r := Scheduling.Schedule(now, senders, req, nextId);
      && r.Ok?
      && |r.value.messages| == |FinalRecipients(uploaded, to)|
      && (forall i, j :: 0 <= i < j < |r.value.messages| ==> r.value.messages[i].recipient != r.value.messages[j].recipient)
      && (forall k :: 0 <= k < |uploaded| ==>
            exists i :: 0 <= i < |r.value.messages| && r.value.messages[i].recipient == Scheduling.Address(uploaded[k]))
  {
    var req := HandleSend(senderId, uploaded, to, subject, body, delay, hourlyLimit, scheduleTime).request;
    var f := FinalRecipients(uploaded, to);
    FinalRecipientsContents(uploaded, to);
    var r := Scheduling.Schedule(now, senders, req, nextId);
    assert Scheduling.RecipientList(req.recipients) == Addresses(f);
    forall k | 0 <= k < |uploaded|
      ensures exists i :: 0 <= i < |r.value.messages| && r.value.messages[i].recipient == Scheduling.Address(uploaded[k])
    {
      var i := FirstIndex(f, uploaded[k]);
      assert r.value.messages[i].recipient == Scheduling.Address(uploaded[k]);
    }
  }

  /** Blank delay and hourly-limit fields post zeros, which the server reads as no stagger at all. */
  lemma BlankFieldsMeanNoStagger(
    senderId: Option<string>, uploaded: seq<string>, to: string, subject: string, body: string,
    scheduleTime: Option<int>)
    requires senderId.Some? && senderId.value != []
    requires uploaded != [] || IsValidEmail(Trim(to))
    ensures var req := HandleSend(senderId, uploaded, to, subject, body, Blank, Blank, scheduleTime).request;
      Scheduling.Interval(req.delay, req.hourlyLimit) == 0.0
  {
  }
}
