/** Decoding of application/x-www-form-urlencoded bodies as HttpRequest::_Handle_Form does it, against
    the encoding of section 17.13.4.1 of HTML 4.01. */
module Form {
  import opened Bytes

  type FormMap = map<bytes, bytes>

  const EQUALS: byte := 61
  const AMPERSAND: byte := 38
  const PLUS: byte := 43
  const PERCENT: byte := 37

  // ----- The decoder -----

  function SignedChar(b: byte): int {
    if b < 128 then b else (b as int) - 256
  }

  /** ConverHex: only letters are converted; every other character stands for its own code. */
  function ConverHex(b: byte): int {
    if 65 <= b <= 70 then (b as int) - 55
    else if 97 <= b <= 102 then (b as int) - 87
    else SignedChar(b)
  }

  function Quotient10(n: int): int {
    if n >= 0 then n / 10 else -(-n / 10)
  }

  function ToChar(n: int): byte {
    n % 256
  }

  /** The two octets that replace the two after a '%'. */
  function TensAndUnits(high: byte, low: byte): (r: bytes)
    ensures |r| == 2
  {
    var num := ConverHex(high) * 16 + ConverHex(low);
    var tens := Quotient10(num);
    [ToChar(tens + 48), ToChar(num - 10 * tens + 48)]
  }

  datatype Scanned = Scanned(body: bytes, j: nat, key: bytes, form: FormMap)

  /** The loop from index `i` on: the body is rewritten where it stands while keys and values are cut
      out of it. None when a '%' has fewer than two octets after it: the string is then written
      past its end. */
  function Scan(body: bytes, i: nat, j: nat, key: bytes, form: FormMap): (r: Option<Scanned>)
    requires j <= i <= |body|
    ensures r.Some? ==> r.value.j <= |r.value.body| == |body|
    decreases |body| - i
  {
    if i == |body| then Some(Scanned(body, j, key, form))
    else if body[i] == EQUALS then Scan(body, i + 1, i + 1, body[j..i], form)
    else if body[i] == PLUS then Scan(body[i := SPACE], i + 1, j, key, form)
    else if body[i] == PERCENT then
      if i + 2 >= |body| then None
      else
        var two := TensAndUnits(body[i + 1], body[i + 2]);
        Scan(body[i + 2 := two[1]][i + 1 := two[0]], i + 3, j, key, form)
    else if body[i] == AMPERSAND then Scan(body, i + 1, i + 1, key, form[key := body[j..i]])
    else Scan(body, i + 1, j, key, form)
  }

  /** The last pair, which no '&' ends. */
  function WithLast(form: FormMap, key: bytes, value: bytes): FormMap {
    if key !in form && value != [] then form[key := value] else form
  }

  datatype Handled = Handled(body: bytes, form: FormMap)

  /** _Handle_Form: the rewritten body and the new form. */
  function Decoded(body: bytes, form: FormMap): Option<Handled> {
    if body == [] then Some(Handled(body, form))
    else
      match Scan(body, 0, 0, [], form)
      case None => None
      case Some(s) => Some(Handled(s.body, WithLast(s.form, s.key, s.body[s.j..])))
  }

  /** Select_Form's lookup: a missing key is put in with an empty value. */
  function WithDefault(form: FormMap, key: bytes): FormMap {
    if key in form then form else form[key := []]
  }

  /** The value of a field, empty if there is none. */
  function Field(form: FormMap, key: bytes): bytes {
    if key in form then form[key] else []
  }

  /** A lookup gives back the value there is, changes no field and adds none but an empty one. */
  lemma WithDefaultLaws(form: FormMap, key: bytes)
    ensures WithDefault(form, key).Keys == form.Keys + {key}
    ensures forall k :: k in WithDefault(form, key) ==> WithDefault(form, key)[k] == Field(form, k)
    ensures key in form ==> WithDefault(form, key) == form
  {
  }

  // ----- What is left of an escape -----

  predicate UpperHex(c: byte) {
    48 <= c <= 57 || 65 <= c <= 70
  }

  function LowerCase(c: byte): byte {
    if 65 <= c <= 70 then c + 32 else c
  }

  /** An escape in lower case leaves what the one in upper case leaves. */
  lemma LowerCaseLeavesTheSame(high: byte, low: byte)
    requires UpperHex(high) && UpperHex(low)
    ensures TensAndUnits(LowerCase(high), LowerCase(low)) == TensAndUnits(high, low)
    ensures TensAndUnits(LowerCase(high), low) == TensAndUnits(high, low) == TensAndUnits(high, LowerCase(low))
  {
    LowerCaseCountsTheSame(high);
    LowerCaseCountsTheSame(low);
    hide ConverHex, LowerCase;
  }

  lemma LowerCaseCountsTheSame(c: byte)
    requires UpperHex(c)
    ensures ConverHex(LowerCase(c)) == ConverHex(c)
  {
  }

  /** What the escape of an octet leaves, exactly: the tens and the units of a number that is the octet
      only if both its digits are letters; a decimal digit counts as its character, 48 too many. */
  lemma EscapeLeaves(c: byte)
    ensures var n := c + (if c / 16 < 10 then 768 else 0) + (if c % 16 < 10 then 48 else 0);
            TensAndUnits(HexDigit(c / 16), HexDigit(c % 16)) == [(n / 10 + 48) % 256, n % 10 + 48]
  {
    DigitCounts(c / 16);
    DigitCounts(c % 16);
    hide ConverHex, HexDigit, ToChar, Quotient10;
    var n := c + (if c / 16 < 10 then 768 else 0) + (if c % 16 < 10 then 48 else 0);
    assert ConverHex(HexDigit(c / 16)) * 16 + ConverHex(HexDigit(c % 16)) == n;
    TensAndUnitsOf(n);
  }

  lemma TensAndUnitsOf(n: nat)
    ensures ToChar(Quotient10(n) + 48) == (n / 10 + 48) % 256
    ensures ToChar(n - 10 * Quotient10(n) + 48) == n % 10 + 48
  {
    assert n - 10 * (n / 10) == n % 10;
  }

  lemma DigitCounts(n: nat)
    requires n < 16
    ensures ConverHex(HexDigit(n)) == if n < 10 then n + 48 else n
  {
  }

  /** After a '%', octets of 128 and more count as negative, and quotient and remainder are too. */
  lemma NegativeOctetLeaves()
    ensures TensAndUnits(200, 65) == [216, 42]
  {
    assert ConverHex(200) * 16 + ConverHex(65) == -886;
  }

  // ----- When decoding stays inside the body -----

  /** From index `i` on, every '%' that is met has two octets after it; these are passed over. */
  predicate PercentsComplete(body: bytes, i: nat)
    requires i <= |body|
    decreases |body| - i
  {
    i == |body| ||
    if body[i] == PERCENT then i + 2 < |body| && PercentsComplete(body, i + 3)
    else PercentsComplete(body, i + 1)
  }

  lemma {:induction false} PercentsAhead(a: bytes, b: bytes, i: nat)
    requires i <= |a| == |b| && forall k :: i <= k < |a| ==> a[k] == b[k]
    ensures PercentsComplete(a, i) == PercentsComplete(b, i)
    decreases |a| - i
  {
    if i < |a| {
      if a[i] != PERCENT {
        PercentsAhead(a, b, i + 1);
      } else if i + 2 < |a| {
        PercentsAhead(a, b, i + 3);
      }
    }
  }

  /** The loop stays inside the body exactly when the octets still to come have no '%' cut short,
      whatever was rewritten and stored before. */
  lemma {:induction false} ScanStaysInsideIff(body: bytes, i: nat, j: nat, key: bytes, form: FormMap)
    requires j <= i <= |body|
    ensures Scan(body, i, j, key, form).Some? <==> PercentsComplete(body, i)
    decreases |body| - i
  {
    if i < |body| {
      if body[i] == EQUALS {
        ScanStaysInsideIff(body, i + 1, i + 1, body[j..i], form);
      } else if body[i] == PLUS {
        ScanStaysInsideIff(body[i := SPACE], i + 1, j, key, form);
        PercentsAhead(body, body[i := SPACE], i + 1);
      } else if body[i] == PERCENT {
        if i + 2 < |body| {
          var two := TensAndUnits(body[i + 1], body[i + 2]);
          var rewritten := body[i + 2 := two[1]][i + 1 := two[0]];
          ScanStaysInsideIff(rewritten, i + 3, j, key, form);
          PercentsAhead(body, rewritten, i + 3);
        }
      } else if body[i] == AMPERSAND {
        ScanStaysInsideIff(body, i + 1, i + 1, key, form[key := body[j..i]]);
      } else {
        ScanStaysInsideIff(body, i + 1, j, key, form);
      }
    }
  }

  /** Any body is decoded without a write past its end if and only if no '%' in it is cut short. */
  lemma DecodedIff(body: bytes, form: FormMap)
    ensures Decoded(body, form).Some? <==> PercentsComplete(body, 0)
  {
    ScanStaysInsideIff(body, 0, 0, [], form);
  }

  /** What an octet outside an escape is left as. */
  function Spaced(c: byte): byte {
    if c == PLUS then SPACE else c
  }

  /** Decoding two octets would leave `body` and `form` as they are: no '%' is among them, `body` is
      they with spaces for '+', and what they would store under the empty key is there, or they store
      nothing. An '&' stores the value before it; otherwise two octets that do not end in '=' are a
      value, which is stored only under a new key. */
  predicate TwoOctetsIdle(two: bytes, body: bytes, form: FormMap)
    requires |two| == 2
  {
    && PERCENT !in two && body == [Spaced(two[0]), Spaced(two[1])]
    && if AMPERSAND in two then
         [] in form
         && form[[]] == if two[0] == EQUALS || two[0] == AMPERSAND then [] else [Spaced(two[0])]
       else two[1] == EQUALS || [] in form
  }

  lemma TwoOctetsIdleIff(two: bytes, body: bytes, form: FormMap)
    requires |two| == 2
    ensures Decoded(two, form) == Some(Handled(body, form)) <==> TwoOctetsIdle(two, body, form)
  {
    if PERCENT in two {
      DecodedIff(two, form);
      assert !PercentsComplete(two, 1) || two[0] == PERCENT;
    } else {
      var a, b := Spaced(two[0]), Spaced(two[1]);
      var j := if two[0] == EQUALS || two[0] == AMPERSAND then 1 else 0;
      FirstOctet(two, form);
      SecondOctet([a, two[1]], j, if two[0] == AMPERSAND then form[[] := []] else form);
      assert [a, two[1]][j..1] == if j == 1 then [] else [a];
      assert two[1] == EQUALS || two[1] == AMPERSAND ==> [a, two[1]] == [a, b];
      assert [a, b][2..] == [] && [a, b][j..] != [];
      hide Scan;
      StoringIsIdle(form, []);
      StoringIsIdle(form, [a]);
      StoringIsIdle(form, [b]);
      StoringIsIdle(form, [a, b]);
    }
  }

  lemma StoringIsIdle(form: FormMap, v: bytes)
    ensures form[[] := v] == form <==> [] in form && form[[]] == v
  {
    if [] in form && form[[]] == v {
      assert form[[] := v] == form;
    }
  }

  /** The loop at the first of two octets. */
  lemma FirstOctet(two: bytes, form: FormMap)
    requires |two| == 2 && two[0] != PERCENT
    ensures Scan(two, 0, 0, [], form) ==
            Scan([Spaced(two[0]), two[1]], 1, if two[0] == EQUALS || two[0] == AMPERSAND then 1 else 0, [],
                 if two[0] == AMPERSAND then form[[] := []] else form)
  {
    assert two == [two[0], two[1]] && two[0..0] == [];
    assert two[0 := SPACE] == [SPACE, two[1]];
  }

  /** The loop at the second of two octets. */
  lemma SecondOctet(body: bytes, j: nat, form: FormMap)
    requires |body| == 2 && j <= 1 && body[1] != PERCENT
    ensures var value := body[j..1];
            Scan(body, 1, j, [], form) == Some(
              if body[1] == EQUALS then Scanned(body, 2, value, form)
              else if body[1] == AMPERSAND then Scanned(body, 2, [], form[[] := value])
              else Scanned([body[0], Spaced(body[1])], j, [], form))
  {
    var b := body[1];
    if b == PLUS {
      assert body[1 := SPACE] == [body[0], SPACE];
      ScanDone(body[1 := SPACE], j, [], form);
    } else {
      assert body == [body[0], b];
      ScanDone(body, j, [], form);
    }
  }

  lemma ScanDone(body: bytes, j: nat, key: bytes, form: FormMap)
    requires j <= |body|
    ensures Scan(body, |body|, j, key, form) == Some(Scanned(body, j, key, form))
  {
  }

  /** The body a=%4 is not. */
  lemma CutPercentOverruns(form: FormMap)
    ensures Decoded([97, EQUALS, PERCENT, 52], form) == None
  {
    var body: bytes := [97, EQUALS, PERCENT, 52];
    assert !PercentsComplete(body, 2) && !PercentsComplete(body, 0);
    DecodedIff(body, form);
  }

  // ----- The encoder -----

  datatype Pair = Pair(key: bytes, value: bytes)

  /** The octets an encoder escapes: at least those that mean something in the encoding. */
  ghost predicate Escapes(esc: set<byte>) {
    {EQUALS, AMPERSAND, PLUS, PERCENT} <= esc && SPACE !in esc
  }

  function HexDigit(n: nat): byte
    requires n < 16
  {
    if n < 10 then 48 + n else 55 + n
  }

  function EncodedOctet(c: byte, esc: set<byte>): bytes {
    if c == SPACE then [PLUS]
    else if c in esc then [PERCENT, HexDigit(c / 16), HexDigit(c % 16)]
    else [c]
  }

  function Encoded(t: bytes, esc: set<byte>): bytes {
    if t == [] then [] else EncodedOctet(t[0], esc) + Encoded(t[1..], esc)
  }

  function JoinedPair(p: Pair, esc: set<byte>): bytes {
    Encoded(p.key, esc) + [EQUALS] + Encoded(p.value, esc)
  }

  /** A text without spaces and octets to escape is its own encoding. */
  lemma {:induction false} EncodedAsIs(t: bytes, esc: set<byte>)
    requires Plain(t, esc) && SPACE !in t
    ensures Encoded(t, esc) == t
  {
    if t != [] {
      assert forall k :: 0 <= k < |t| - 1 ==> t[1..][k] == t[k + 1];
      EncodedAsIs(t[1..], esc);
    }
  }

  /** The body of a form: k=v pairs joined by '&'. */
  function Joined(pairs: seq<Pair>, esc: set<byte>): bytes {
    if pairs == [] then []
    else
      JoinedPair(pairs[0], esc) + (if |pairs| == 1 then [] else [AMPERSAND] + Joined(pairs[1..], esc))
  }

  lemma {:induction false} EncodedLength(t: bytes, esc: set<byte>)
    ensures |Encoded(t, esc)| >= |t|
  {
    if t != [] {
      EncodedLength(t[1..], esc);
    }
  }

  /** A body is longer than any of its keys. */
  lemma {:induction false} JoinedLength(pairs: seq<Pair>, esc: set<byte>, i: nat)
    requires i < |pairs|
    ensures |Joined(pairs, esc)| > |pairs[i].key|
    decreases |pairs|
  {
    if i > 0 {
      JoinedLength(pairs[1..], esc, i - 1);
    } else {
      EncodedLength(pairs[0].key, esc);
    }
  }

  // ----- What the decoder makes of an encoded text -----

  /** What is left of an encoded octet: a space for '+', and for an escape the '%' and two octets
      that depend on its digits. */
  function KeptOctet(c: byte, esc: set<byte>): bytes {
    if c != SPACE && c in esc then [PERCENT] + TensAndUnits(HexDigit(c / 16), HexDigit(c % 16)) else [c]
  }

  function Kept(t: bytes, esc: set<byte>): (r: bytes)
    ensures |r| >= |t|
  {
    if t == [] then [] else KeptOctet(t[0], esc) + Kept(t[1..], esc)
  }

  function KeptPairs(pairs: seq<Pair>, esc: set<byte>): (r: seq<Pair>)
    ensures |r| == |pairs|
    ensures forall i :: 0 <= i < |r| ==> r[i] == Pair(Kept(pairs[i].key, esc), Kept(pairs[i].value, esc))
  {
    if pairs == [] then []
    else [Pair(Kept(pairs[0].key, esc), Kept(pairs[0].value, esc))] + KeptPairs(pairs[1..], esc)
  }

  lemma ScanOctet(pre: bytes, c: byte, suf: bytes, j: nat, key: bytes, form: FormMap, esc: set<byte>)
    requires Escapes(esc) && j <= |pre|
    ensures |EncodedOctet(c, esc)| == |KeptOctet(c, esc)|
    ensures Scan(pre + EncodedOctet(c, esc) + suf, |pre|, j, key, form)
         == Scan(pre + KeptOctet(c, esc) + suf, |pre| + |KeptOctet(c, esc)|, j, key, form)
  {
    var body := pre + EncodedOctet(c, esc) + suf;
    var rewritten := pre + KeptOctet(c, esc) + suf;
    var i := |pre|;
    assert body[i] == EncodedOctet(c, esc)[0];
    if c == SPACE {
      assert body[i := SPACE] == rewritten;
    } else if c in esc {
      assert body[i + 1] == HexDigit(c / 16) && body[i + 2] == HexDigit(c % 16);
      var two := TensAndUnits(body[i + 1], body[i + 2]);
      assert body[i + 2 := two[1]][i + 1 := two[0]] == rewritten;
    } else {
      assert body == rewritten;
    }
  }

  /** Scanning an encoded text rewrites it in place and does nothing else. */
  lemma {:induction false} ScanText(pre: bytes, t: bytes, suf: bytes, j: nat, key: bytes, form: FormMap, esc: set<byte>)
    requires Escapes(esc) && j <= |pre|
    ensures |Encoded(t, esc)| == |Kept(t, esc)|
    ensures Scan(pre + Encoded(t, esc) + suf, |pre|, j, key, form)
         == Scan(pre + Kept(t, esc) + suf, |pre| + |Kept(t, esc)|, j, key, form)
    decreases |t|
  {
    hide Scan, EncodedOctet, KeptOctet;
    if t != [] {
      var rest := Encoded(t[1..], esc);
      var head := KeptOctet(t[0], esc);
      ScanOctet(pre, t[0], rest + suf, j, key, form, esc);
      assert pre + Encoded(t, esc) + suf == pre + EncodedOctet(t[0], esc) + (rest + suf);
      ScanText(pre + head, t[1..], suf, j, key, form, esc);
      assert pre + head + (rest + suf) == pre + head + rest + suf;
      assert pre + Kept(t, esc) + suf == pre + head + Kept(t[1..], esc) + suf;
    }
  }

  /** The pairs stored one after the other, later ones over earlier ones. */
  function Stored(form: FormMap, pairs: seq<Pair>): FormMap
    decreases |pairs|
  {
    if pairs == [] then form
    else
      var n := |pairs| - 1;
      Stored(form, pairs[..n])[pairs[n].key := pairs[n].value]
  }

  lemma {:induction false} StoredFront(form: FormMap, pairs: seq<Pair>)
    requires pairs != []
    ensures Stored(form, pairs) == Stored(form[pairs[0].key := pairs[0].value], pairs[1..])
    decreases |pairs|
  {
    var n := |pairs| - 1;
    if n > 0 {
      StoredFront(form, pairs[..n]);
      assert pairs[1..][..n - 1] == pairs[..n][1..];
    } else {
      assert pairs[..0] == [] && pairs[1..] == [];
    }
  }

  lemma ScanEquals(pre: bytes, suf: bytes, j: nat, key: bytes, form: FormMap)
    requires j <= |pre|
    ensures Scan(pre + [EQUALS] + suf, |pre|, j, key, form)
         == Scan(pre + [EQUALS] + suf, |pre| + 1, |pre| + 1, pre[j..], form)
  {
    assert (pre + [EQUALS] + suf)[j..|pre|] == pre[j..];
  }

  lemma ScanAmpersand(pre: bytes, suf: bytes, j: nat, key: bytes, form: FormMap)
    requires j <= |pre|
    ensures Scan(pre + [AMPERSAND] + suf, |pre|, j, key, form)
         == Scan(pre + [AMPERSAND] + suf, |pre| + 1, |pre| + 1, key, form[key := pre[j..]])
  {
    assert (pre + [AMPERSAND] + suf)[j..|pre|] == pre[j..];
  }

  /** One k=v from the start of a key to the end of its value. */
  lemma ScanPair(pre: bytes, p: Pair, suf: bytes, key: bytes, form: FormMap, esc: set<byte>)
    requires Escapes(esc)
    ensures
      var k, v := Kept(p.key, esc), Kept(p.value, esc);
      var start := |pre| + |k| + 1;
      Scan(pre + JoinedPair(p, esc) + suf, |pre|, |pre|, key, form)
      == Scan(pre + (k + [EQUALS] + v) + suf, start + |v|, start, k, form)
  {
    hide Scan, Kept, Encoded;
    var k, v := Kept(p.key, esc), Kept(p.value, esc);
    var ev := Encoded(p.value, esc);
    ScanText(pre, p.key, [EQUALS] + ev + suf, |pre|, key, form, esc);
    assert pre + JoinedPair(p, esc) + suf
        == pre + Encoded(p.key, esc) + ([EQUALS] + ev + suf);
    assert pre + k + ([EQUALS] + ev + suf) == (pre + k) + [EQUALS] + (ev + suf);
    ScanEquals(pre + k, ev + suf, |pre|, key, form);
    assert (pre + k)[|pre|..] == k;
    var next := pre + k + [EQUALS];
    assert (pre + k) + [EQUALS] + (ev + suf) == next + ev + suf;
    ScanText(next, p.value, suf, |next|, k, form, esc);
    assert next + v + suf == pre + (k + [EQUALS] + v) + suf;
  }

  /** The last pair: its key is known, its value is the end of the body. */
  lemma ScanLastPair(pre: bytes, p: Pair, key: bytes, form: FormMap, esc: set<byte>)
    requires Escapes(esc)
    ensures
      var r := Scan(pre + JoinedPair(p, esc), |pre|, |pre|, key, form);
      && r.Some? && r.value.key == Kept(p.key, esc) && r.value.form == form
      && r.value.j <= |r.value.body| && r.value.body[r.value.j..] == Kept(p.value, esc)
  {
    hide Scan, Kept, Encoded;
    var k, v := Kept(p.key, esc), Kept(p.value, esc);
    var done := pre + (k + [EQUALS] + v);
    ScanPair(pre, p, [], key, form, esc);
    assert pre + JoinedPair(p, esc) + [] == pre + JoinedPair(p, esc) && done + [] == done;
    assert done[|pre| + |k| + 1..] == v;
    ScanDone(done, |pre| + |k| + 1, k, form);
  }

  /** A pair that '&' ends: it is stored. */
  lemma ScanNextPair(pre: bytes, p: Pair, rest: bytes, key: bytes, form: FormMap, esc: set<byte>)
    requires Escapes(esc)
    ensures
      var k, v := Kept(p.key, esc), Kept(p.value, esc);
      var next := pre + (k + [EQUALS] + v) + [AMPERSAND];
      Scan(pre + (JoinedPair(p, esc) + ([AMPERSAND] + rest)), |pre|, |pre|, key, form)
      == Scan(next + rest, |next|, |next|, k, form[k := v])
  {
    hide Scan, Kept, Encoded;
    var k, v := Kept(p.key, esc), Kept(p.value, esc);
    var done := pre + (k + [EQUALS] + v);
    ScanPair(pre, p, [AMPERSAND] + rest, key, form, esc);
    assert pre + (JoinedPair(p, esc) + ([AMPERSAND] + rest)) == pre + JoinedPair(p, esc) + ([AMPERSAND] + rest);
    assert done + ([AMPERSAND] + rest) == done + [AMPERSAND] + rest;
    ScanAmpersand(done, rest, |pre| + |k| + 1, k, form);
    assert done[|pre| + |k| + 1..] == v;
  }

  /** A whole encoded form after `pre`: all pairs but the last are stored, the last one is left as
      key and as the end of the body. */
  lemma {:induction false} ScanPairs(pre: bytes, pairs: seq<Pair>, key: bytes, form: FormMap, esc: set<byte>)
    requires Escapes(esc) && pairs != []
    ensures
      var n := |pairs| - 1;
      var kept := KeptPairs(pairs, esc);
      var r := Scan(pre + Joined(pairs, esc), |pre|, |pre|, key, form);
      && r.Some? && r.value.key == kept[n].key && r.value.form == Stored(form, kept[..n])
      && r.value.j <= |r.value.body| && r.value.body[r.value.j..] == kept[n].value
    decreases |pairs|
  {
    hide Scan, Kept, Encoded, Stored, JoinedPair;
    var p := pairs[0];
    var kept := KeptPairs(pairs, esc);
    JoinedSplit(pairs, esc);
    if |pairs| == 1 {
      ScanLastPair(pre, p, key, form, esc);
      StoredNone(form, kept[..0]);
    } else {
      var k, v := Kept(p.key, esc), Kept(p.value, esc);
      var next := pre + (k + [EQUALS] + v) + [AMPERSAND];
      ScanNextPair(pre, p, Joined(pairs[1..], esc), key, form, esc);
      ScanPairs(next, pairs[1..], k, form[k := v], esc);
      assert KeptPairs(pairs[1..], esc) == kept[1..];
      StoredNext(form, kept);
    }
  }

  lemma JoinedSplit(pairs: seq<Pair>, esc: set<byte>)
    requires pairs != []
    ensures Joined(pairs, esc) ==
      if |pairs| == 1 then JoinedPair(pairs[0], esc)
      else JoinedPair(pairs[0], esc) + ([AMPERSAND] + Joined(pairs[1..], esc))
  {
  }

  lemma StoredNone(form: FormMap, pairs: seq<Pair>)
    requires pairs == []
    ensures Stored(form, pairs) == form
  {
  }

  lemma StoredNext(form: FormMap, pairs: seq<Pair>)
    requires |pairs| >= 2
    ensures var n := |pairs| - 1;
            Stored(form[pairs[0].key := pairs[0].value], pairs[1..][..n - 1]) == Stored(form, pairs[..n])
  {
    var n := |pairs| - 1;
    StoredFront(form, pairs[..n]);
    assert pairs[..n][1..] == pairs[1..][..n - 1];
  }

  /** What decoding makes of any encoded form, on top of any form kept from before. */
  lemma DecodedForm(pairs: seq<Pair>, form: FormMap, esc: set<byte>)
    requires Escapes(esc) && pairs != []
    ensures
      var n := |pairs| - 1;
      var kept := KeptPairs(pairs, esc);
      var r := Decoded(Joined(pairs, esc), form);
      r.Some? && r.value.form == WithLast(Stored(form, kept[..n]), kept[n].key, kept[n].value)
  {
    ScanPairs([], pairs, [], form, esc);
    assert [] + Joined(pairs, esc) == Joined(pairs, esc);
    assert EQUALS in Joined(pairs, esc) by {
      assert Joined(pairs, esc)[|Encoded(pairs[0].key, esc)|] == EQUALS;
    }
  }

  // ----- When decoding undoes encoding -----

  ghost predicate Plain(t: bytes, esc: set<byte>) {
    forall i :: 0 <= i < |t| ==> t[i] !in esc
  }

  ghost predicate PlainPairs(pairs: seq<Pair>, esc: set<byte>) {
    forall i :: 0 <= i < |pairs| ==> Plain(pairs[i].key, esc) && Plain(pairs[i].value, esc)
  }

  ghost predicate DistinctKeys(pairs: seq<Pair>) {
    forall i, j :: 0 <= i < j < |pairs| ==> pairs[i].key != pairs[j].key
  }

  /** A text comes through unchanged if nothing in it is escaped; else it grows and keeps a '%'. */
  lemma {:induction false} KeptPlain(t: bytes, esc: set<byte>)
    requires Escapes(esc)
    ensures Plain(t, esc) ==> Kept(t, esc) == t
    ensures !Plain(t, esc) ==> |Kept(t, esc)| > |t| && PERCENT in Kept(t, esc)
  {
    if t != [] {
      KeptPlain(t[1..], esc);
      if t[0] in esc {
        assert Kept(t, esc)[0] == PERCENT;
      } else if !Plain(t[1..], esc) {
        var rest := Kept(t[1..], esc);
        var i :| 0 <= i < |rest| && rest[i] == PERCENT;
        assert Kept(t, esc)[i + 1] == PERCENT;
      } else {
        forall k | 0 <= k < |t| ensures t[k] !in esc {
          assert k > 0 ==> t[k] == t[1..][k - 1];
        }
      }
    }
  }

  lemma {:induction false} StoredKeys(form: FormMap, pairs: seq<Pair>, k: bytes)
    ensures k in Stored(form, pairs) <==> k in form || exists i :: 0 <= i < |pairs| && pairs[i].key == k
    decreases |pairs|
  {
    if pairs != [] {
      var n := |pairs| - 1;
      StoredKeys(form, pairs[..n], k);
      if i :| 0 <= i < n && pairs[i].key == k {
        assert pairs[..n][i].key == k;
      }
    }
  }

  lemma {:induction false} StoredValue(form: FormMap, pairs: seq<Pair>, i: nat)
    requires DistinctKeys(pairs) && i < |pairs|
    ensures pairs[i].key in Stored(form, pairs) && Stored(form, pairs)[pairs[i].key] == pairs[i].value
    decreases |pairs|
  {
    var n := |pairs| - 1;
    if i < n {
      StoredValue(form, pairs[..n], i);
      assert pairs[..n][i] == pairs[i];
    }
  }

  /** On plain pairs, decoding adds them all to the form kept from before exactly when the last one
      is stored (its key is new and its value is not empty) or is there already. */
  lemma PlainFormIff(pairs: seq<Pair>, form: FormMap, esc: set<byte>)
    requires Escapes(esc) && pairs != [] && PlainPairs(pairs, esc)
    ensures
      var last := pairs[|pairs| - 1];
      var before := Stored(form, pairs[..|pairs| - 1]);
      var r := Decoded(Joined(pairs, esc), form);
      && r.Some?
      && (r.value.form == Stored(form, pairs) <==>
            (last.key !in before && last.value != []) || (last.key in before && before[last.key] == last.value))
  {
    DecodedForm(pairs, form, esc);
    KeptPlainPairs(pairs, esc);
    var n := |pairs| - 1;
    var before := Stored(form, pairs[..n]);
    var r := Decoded(Joined(pairs, esc), form).value.form;
    assert r == WithLast(before, pairs[n].key, pairs[n].value);
    assert Stored(form, pairs)[pairs[n].key] == pairs[n].value;
    if pairs[n].key in before && before[pairs[n].key] == pairs[n].value {
      assert before[pairs[n].key := pairs[n].value] == before;
    }
  }

  lemma KeptPlainPairs(pairs: seq<Pair>, esc: set<byte>)
    requires Escapes(esc) && PlainPairs(pairs, esc)
    ensures KeptPairs(pairs, esc) == pairs
  {
    forall i | 0 <= i < |pairs| ensures KeptPairs(pairs, esc)[i] == pairs[i] {
      KeptPlain(pairs[i].key, esc);
      KeptPlain(pairs[i].value, esc);
    }
  }

  /** The form is never cleared, so the last field of a form sent twice over one connection keeps
      the value of the first time. */
  lemma LastFieldGoesStale(pairs: seq<Pair>, form: FormMap, esc: set<byte>)
    requires Escapes(esc) && pairs != [] && PlainPairs(pairs, esc) && DistinctKeys(pairs)
    requires pairs[|pairs| - 1].key in form
    ensures
      var last := pairs[|pairs| - 1].key;
      var r := Decoded(Joined(pairs, esc), form);
      r.Some? && last in r.value.form && r.value.form[last] == form[last]
  {
    DecodedForm(pairs, form, esc);
    KeptPlainPairs(pairs, esc);
    StoredElsewhere(form, pairs[..|pairs| - 1], pairs[|pairs| - 1].key);
  }

  /** The form kept from earlier requests leaves no trace exactly when each of its keys is stored anew,
      or is the last key with the same, non-empty value. */
  lemma OldFormVanishesIff(pairs: seq<Pair>, form: FormMap, esc: set<byte>)
    requires Escapes(esc) && pairs != []
    ensures
      var n := |pairs| - 1;
      var kept := KeptPairs(pairs, esc);
      var r, r0 := Decoded(Joined(pairs, esc), form), Decoded(Joined(pairs, esc), map[]);
      && r.Some? && r0.Some?
      && (r.value.form == r0.value.form <==>
            forall k :: k in form ==>
              || HasKey(kept[..n], k)
              || (k == kept[n].key && form[k] == kept[n].value != []))
  {
    hide Decoded, Joined;
    DecodedForm(pairs, form, esc);
    DecodedForm(pairs, map[], esc);
    var n := |pairs| - 1;
    var kept := KeptPairs(pairs, esc);
    forall k {
      StoredOver(form, kept[..n], k);
    }
    WithLastVanishesIff(Stored(form, kept[..n]), Stored(map[], kept[..n]), form, kept[..n], kept[n].key, kept[n].value);
  }

  ghost predicate HasKey(pairs: seq<Pair>, k: bytes) {
    exists i :: 0 <= i < |pairs| && pairs[i].key == k
  }

  /** Storing pairs over a form: their keys come from the pairs alone, all others from the form. */
  ghost predicate StoresOver(s: FormMap, s0: FormMap, form: FormMap, pairs: seq<Pair>, k: bytes) {
    && (k in s0 <==> HasKey(pairs, k))
    && (k in s <==> HasKey(pairs, k) || k in form)
    && (k in s ==> s[k] == if HasKey(pairs, k) then s0[k] else form[k])
  }

  lemma {:induction false} StoredOver(form: FormMap, pairs: seq<Pair>, k: bytes)
    ensures StoresOver(Stored(form, pairs), Stored(map[], pairs), form, pairs, k)
    decreases |pairs|
  {
    if pairs != [] {
      var n := |pairs| - 1;
      StoredOver(form, pairs[..n], k);
      assert HasKey(pairs, k) <==> HasKey(pairs[..n], k) || pairs[n].key == k by {
        if HasKey(pairs[..n], k) {
          var i :| 0 <= i < n && pairs[..n][i].key == k;
          assert pairs[i].key == k;
        }
        if HasKey(pairs, k) {
          var i :| 0 <= i <= n && pairs[i].key == k;
          assert i < n ==> pairs[..n][i].key == k;
        }
      }
    }
  }

  lemma WithLastVanishesIff(s: FormMap, s0: FormMap, form: FormMap, pairs: seq<Pair>, key: bytes, value: bytes)
    requires forall k :: StoresOver(s, s0, form, pairs, k)
    ensures WithLast(s, key, value) == WithLast(s0, key, value) <==>
              forall k :: k in form ==> HasKey(pairs, k) || (k == key && form[k] == value != [])
  {
    var r, r0 := WithLast(s, key, value), WithLast(s0, key, value);
    assert forall k :: StoresOver(s, s0, form, pairs, k);
    if r == r0 {
      forall k | k in form && !HasKey(pairs, k) ensures k == key && form[k] == value != [] {
        assert StoresOver(s, s0, form, pairs, k);
        assert k in r && r[k] == form[k];
        assert k in r0;
      }
    }
    if forall k :: k in form ==> HasKey(pairs, k) || (k == key && form[k] == value != []) {
      forall k ensures (k in r <==> k in r0) && (k in r ==> r[k] == r0[k]) {
        assert StoresOver(s, s0, form, pairs, k) && StoresOver(s, s0, form, pairs, key);
      }
      assert r.Keys == r0.Keys;
    }
  }

  /** An earlier form a=1 shows up in a later request's b=2. */
  lemma OldFieldShows()
    ensures var later := Decoded(Joined([Pair([98], [50])], {EQUALS, AMPERSAND, PLUS, PERCENT}), map[[97] := [49]]);
            later.Some? && [97] in later.value.form
  {
    var esc := {EQUALS, AMPERSAND, PLUS, PERCENT};
    var pairs := [Pair([98], [50])];
    OldFormVanishesIff(pairs, map[[97] := [49]], esc);
    DecodedForm(pairs, map[[97] := [49]], esc);
    StoredKeys(map[[97] := [49]], KeptPairs(pairs, esc)[..0], [97]);
  }

  /** A key that is known keeps its value exactly when no pair before the last gives it another one. */
  lemma KnownKeyIff(pairs: seq<Pair>, form: FormMap, esc: set<byte>, k: bytes)
    requires Escapes(esc) && pairs != [] && PlainPairs(pairs, esc) && DistinctKeys(pairs) && k in form
    ensures
      var r := Decoded(Joined(pairs, esc), form);
      && r.Some? && k in r.value.form
      && (r.value.form[k] == form[k] <==>
            forall i :: 0 <= i < |pairs| - 1 && pairs[i].key == k ==> pairs[i].value == form[k])
  {
    hide Decoded, Joined;
    DecodedForm(pairs, form, esc);
    KeptPlainPairs(pairs, esc);
    var before := pairs[..|pairs| - 1];
    hide Escapes, PlainPairs, KeptPairs;
    StoredKeys(form, before, k);
    KnownKeyStored(before, form, k);
    assert forall i :: 0 <= i < |before| ==> before[i] == pairs[i];
    hide DistinctKeys, Stored;
  }

  lemma KnownKeyStored(pairs: seq<Pair>, form: FormMap, k: bytes)
    requires DistinctKeys(pairs) && k in form && k in Stored(form, pairs)
    ensures Stored(form, pairs)[k] == form[k] <==>
              forall i :: 0 <= i < |pairs| && pairs[i].key == k ==> pairs[i].value == form[k]
  {
    if i :| 0 <= i < |pairs| && pairs[i].key == k {
      StoredValue(form, pairs, i);
    } else {
      StoredElsewhere(form, pairs, k);
    }
  }

  /** Forms decoded one after the other, nothing being cleared in between. */
  function DecodedInTurn(forms: seq<seq<Pair>>, form: FormMap, esc: set<byte>): FormMap
    decreases |forms|
  {
    if forms == [] then form
    else
      match Decoded(Joined(forms[0], esc), form)
      case None => form
      case Some(h) => DecodedInTurn(forms[1..], h.form, esc)
  }

  lemma {:induction false} KnownKeyStays(forms: seq<seq<Pair>>, form: FormMap, esc: set<byte>, k: bytes)
    requires Escapes(esc) && k in form
    requires forall i :: 0 <= i < |forms| ==>
               forms[i] != [] && PlainPairs(forms[i], esc) && DistinctKeys(forms[i])
               && !HasKey(forms[i][..|forms[i]| - 1], k)
    ensures k in DecodedInTurn(forms, form, esc) && DecodedInTurn(forms, form, esc)[k] == form[k]
    decreases |forms|
  {
    hide Decoded, Joined;
    if forms != [] {
      var pairs := forms[0];
      forall i | 0 <= i < |pairs| - 1 ensures pairs[i].key != k {
        assert pairs[..|pairs| - 1][i] == pairs[i];
      }
      KnownKeyIff(pairs, form, esc, k);
      KnownKeyStays(forms[1..], Decoded(Joined(pairs, esc), form).value.form, esc, k);
    }
  }

  lemma {:induction false} StoredElsewhere(form: FormMap, pairs: seq<Pair>, k: bytes)
    requires k in form && forall i :: 0 <= i < |pairs| ==> pairs[i].key != k
    ensures k in Stored(form, pairs) && Stored(form, pairs)[k] == form[k]
    decreases |pairs|
  {
    if pairs != [] {
      StoredElsewhere(form, pairs[..|pairs| - 1], k);
    }
  }

  /** With a fresh form, decoding undoes encoding if and only if no octet of any key or value had to
      be escaped. */
  lemma DecodingUndoesEncodingIff(pairs: seq<Pair>, esc: set<byte>)
    requires Escapes(esc) && pairs != [] && DistinctKeys(pairs) && pairs[|pairs| - 1].value != []
    ensures Decoded(Joined(pairs, esc), map[]).Some?
    ensures Decoded(Joined(pairs, esc), map[]).value.form == Stored(map[], pairs) <==> PlainPairs(pairs, esc)
  {
    DecodedForm(pairs, map[], esc);
    if PlainPairs(pairs, esc) {
      PlainFormIff(pairs, map[], esc);
      StoredKeys(map[], pairs[..|pairs| - 1], pairs[|pairs| - 1].key);
    } else if Decoded(Joined(pairs, esc), map[]).value.form == Stored(map[], pairs) {
      KeysUnescaped(pairs, esc);
      ValuesUnescaped(pairs, esc);
    }
  }

  lemma DecodedKeys(pairs: seq<Pair>, esc: set<byte>, i: nat)
    requires Escapes(esc) && i < |pairs| && pairs[|pairs| - 1].value != []
    ensures var r := Decoded(Joined(pairs, esc), map[]);
            r.Some? && Kept(pairs[i].key, esc) in r.value.form
  {
    hide Decoded, KeptPairs, Kept;
    DecodedForm(pairs, map[], esc);
    var kept := KeptPairs(pairs, esc);
    var n := |pairs| - 1;
    if i < n {
      StoredKeys(map[], kept[..n], kept[i].key);
      assert kept[..n][i].key == kept[i].key;
    } else {
      assert kept[n].value != [];
    }
  }

  lemma KeysUnescaped(pairs: seq<Pair>, esc: set<byte>)
    requires Escapes(esc) && pairs != [] && pairs[|pairs| - 1].value != []
    requires Decoded(Joined(pairs, esc), map[]).Some?
    requires Decoded(Joined(pairs, esc), map[]).value.form == Stored(map[], pairs)
    ensures forall i :: 0 <= i < |pairs| ==> Plain(pairs[i].key, esc)
  {
    forall i | 0 <= i < |pairs| ensures Plain(pairs[i].key, esc) {
      KeyUnescaped(pairs, esc, i, LongestKey(pairs));
    }
  }

  function LongestKey(pairs: seq<Pair>): (n: nat)
    ensures forall i :: 0 <= i < |pairs| ==> |pairs[i].key| <= n
  {
    if pairs == [] then 0
    else
      var n := LongestKey(pairs[1..]);
      assert forall i :: 1 <= i < |pairs| ==> pairs[i] == pairs[1..][i - 1];
      if |pairs[0].key| > n then |pairs[0].key| else n
  }

  /** An escaped key comes out longer and with a '%'; being a key of the form it is then the escaped
      key of another pair, and so on beyond the longest key. */
  lemma {:induction false} KeyUnescaped(pairs: seq<Pair>, esc: set<byte>, i: nat, longest: nat)
    requires Escapes(esc) && i < |pairs| && pairs[|pairs| - 1].value != []
    requires Decoded(Joined(pairs, esc), map[]).Some?
    requires Decoded(Joined(pairs, esc), map[]).value.form == Stored(map[], pairs)
    requires forall k :: 0 <= k < |pairs| ==> |pairs[k].key| <= longest
    ensures Plain(pairs[i].key, esc)
    decreases longest - |pairs[i].key|
  {
    var k := Kept(pairs[i].key, esc);
    KeptPlain(pairs[i].key, esc);
    if !Plain(pairs[i].key, esc) {
      DecodedKeys(pairs, esc, i);
      StoredKeys(map[], pairs, k);
      var j :| 0 <= j < |pairs| && pairs[j].key == k;
      KeyUnescaped(pairs, esc, j, longest);
      assert false;
    }
  }

  lemma ValuesUnescaped(pairs: seq<Pair>, esc: set<byte>)
    requires Escapes(esc) && pairs != [] && DistinctKeys(pairs) && pairs[|pairs| - 1].value != []
    requires forall i :: 0 <= i < |pairs| ==> Plain(pairs[i].key, esc)
    requires Decoded(Joined(pairs, esc), map[]).Some?
    requires Decoded(Joined(pairs, esc), map[]).value.form == Stored(map[], pairs)
    ensures forall i :: 0 <= i < |pairs| ==> Plain(pairs[i].value, esc)
  {
    hide Decoded, KeptPairs;
    var kept := KeptPairs(pairs, esc);
    var n := |pairs| - 1;
    forall i | 0 <= i < |pairs| ensures kept[i].key == pairs[i].key {
      KeptPlain(pairs[i].key, esc);
    }
    DecodedForm(pairs, map[], esc);
    StoredKeys(map[], kept[..n], kept[n].key);
    assert Stored(map[], kept) == Stored(map[], kept[..n])[kept[n].key := kept[n].value];
    assert Stored(map[], kept) == Stored(map[], pairs);
    forall i | 0 <= i < |pairs| ensures Plain(pairs[i].value, esc) {
      StoredValue(map[], kept, i);
      StoredValue(map[], pairs, i);
      KeptPlain(pairs[i].value, esc);
    }
  }

  /** %3D, the escape of '=', is left as '%', an octet that is no text at all, and '9'. */
  lemma EscapeNotDecoded()
    ensures Kept([EQUALS], {EQUALS, AMPERSAND, PLUS, PERCENT}) == [PERCENT, 130, 57]
  {
    assert HexDigit(3) == 51 && HexDigit(13) == 68;
    assert ConverHex(51) * 16 + ConverHex(68) == 829;
  }
}
