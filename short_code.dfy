/**
 * The short-code generator of `UrlsService.generateShortCode`:
 * `randomBytes(4).toString('base64').replace(/\W/g, '').slice(0, 6)`.
 * The four random bytes are a parameter; the function itself is pure.
 */
module ShortCode {
  import opened Base64

  /** The output of `randomBytes(4)`. */
  type Quad = s: seq<Byte> | |s| == 4 witness [0, 0, 0, 0]

  /** The bound passed to `slice(0, 6)`. */
  const CodeLength: nat := 6

  /** A member of JavaScript's `\w` class (no `u` flag): `[A-Za-z0-9_]`. */
  predicate IsWordChar(c: char) {
    'A' <= c <= 'Z' || 'a' <= c <= 'z' || '0' <= c <= '9' || c == '_'
  }

  predicate IsAsciiAlnum(c: char) {
    'A' <= c <= 'Z' || 'a' <= c <= 'z' || '0' <= c <= '9'
  }

  /** What the generator can produce: 1 to 6 ASCII letters and digits. */
  predicate IsShortCode(code: string) {
    1 <= |code| <= CodeLength && forall i :: 0 <= i < |code| ==> IsAsciiAlnum(code[i])
  }

  /** `s.replace(/\W/g, '')`: drops every character outside `\w`, keeping the order of the rest. */
  function RemoveNonWord(s: string): (r: string)
    ensures |r| <= |s|
    ensures forall i :: 0 <= i < |r| ==> IsWordChar(r[i]) && r[i] in s
    ensures |r| == |s| <==> forall i :: 0 <= i < |s| ==> IsWordChar(s[i])
    decreases |s|
  {
    if s == [] then []
    else
      var rest := RemoveNonWord(s[1..]);
      assert forall c :: c in s[1..] ==> c in s;
      assert forall i :: 1 <= i < |s| ==> s[i] == s[1..][i - 1];
      if IsWordChar(s[0]) then [s[0]] + rest else rest
  }

  /** The filter keeps every word character of `s`, as often as it occurs, and nothing else. */
  lemma {:induction false} RemoveNonWordCounts(s: string)
    ensures forall c :: multiset(RemoveNonWord(s))[c] == if IsWordChar(c) then multiset(s)[c] else 0
    decreases |s|
  {
    if s != [] {
      RemoveNonWordCounts(s[1..]);
      assert s == [s[0]] + s[1..];
    }
  }

  /** `s.slice(0, n)`: the first `n` characters, or all of `s` when it is shorter. */
  function Slice(s: string, n: nat): (r: string)
    ensures |r| == if |s| < n then |s| else n
    ensures r <= s
  {
    if |s| <= n then s else s[..n]
  }

  lemma {:induction false} RemoveNonWordAppend(a: string, b: string)
    ensures RemoveNonWord(a + b) == RemoveNonWord(a) + RemoveNonWord(b)
    decreases |a|
  {
    if a != [] {
      assert (a + b)[1..] == a[1..] + b;
      RemoveNonWordAppend(a[1..], b);
    } else {
      assert a + b == b;
    }
  }

  /** Four bytes encode to one full group and a final single byte: six data characters and "==". */
  lemma QuadEncoding(q: Quad)
    ensures Encode(q) == EncodeGroup(q[0], q[1], q[2]) + EncodeFinal1(q[3])
  {
  }

  /**
   * What survives the `\W` filter: the six data characters of the
   * encoding without '+' and '/', which is never empty because the last
   * data character encodes two bits followed by four zero bits and so is
   * one of 'A', 'Q', 'g', 'w'.
   */
  lemma WordPartOfEncoding(q: Quad)
    ensures Encode(q)[6..] == [Pad, Pad]
    ensures RemoveNonWord(Encode(q)) == RemoveNonWord(Encode(q)[..6])
    ensures IsShortCode(RemoveNonWord(Encode(q)))
  {
    QuadEncoding(q);
    var e := Encode(q);
    var data := e[..6];
    assert e == data + [Pad, Pad];
    RemoveNonWordAppend(data, [Pad, Pad]);
    assert RemoveNonWord([Pad, Pad]) == [];
    assert data == data[..5] + [data[5]];
    RemoveNonWordAppend(data[..5], [data[5]]);
    assert data[5] == CharOf(q[3] % 4 * 16);
    assert IsWordChar(data[5]);
    var w := RemoveNonWord(e);
    forall i | 0 <= i < |w|
      ensures IsAsciiAlnum(w[i])
    {
      assert w[i] in e;
      var j :| 0 <= j < |e| && e[j] == w[i];
      assert IsEncodingChar(e[j]);
    }
  }

  /** `randomBytes(4).toString('base64').replace(/\W/g, '').slice(0, 6)` with the bytes given. */
  function GenerateShortCode(bytes: Quad): (code: string)
    ensures IsShortCode(code)
  {
    WordPartOfEncoding(bytes);
    Slice(RemoveNonWord(Encode(bytes)), CodeLength)
  }

  /**
   * The code is exactly the six data characters of the encoding with '+'
   * and '/' removed: `slice(0, 6)` never cuts anything, and nothing pads
   * the code back to six characters.
   */
  lemma ShortCodeIsFilteredData(bytes: Quad)
    ensures GenerateShortCode(bytes) == RemoveNonWord(Encode(bytes))
    ensures GenerateShortCode(bytes) == RemoveNonWord(Encode(bytes)[..6])
  {
    WordPartOfEncoding(bytes);
  }

  /** The code has the full six characters exactly when no data character is '+' or '/'. */
  lemma FullLengthIff(bytes: Quad)
    ensures |GenerateShortCode(bytes)| == CodeLength <==>
            forall i :: 0 <= i < 6 ==> Encode(bytes)[i] != '+' && Encode(bytes)[i] != '/'
  {
    WordPartOfEncoding(bytes);
    var data := Encode(bytes)[..6];
    assert forall i :: 0 <= i < 6 ==> data[i] == Encode(bytes)[i];
    assert forall i :: 0 <= i < 6 ==> (IsWordChar(data[i]) <==> data[i] != '+' && data[i] != '/') by {
      forall i | 0 <= i < 6
        ensures IsWordChar(data[i]) <==> data[i] != '+' && data[i] != '/'
      {
        assert IsEncodingChar(Encode(bytes)[i]);
      }
    }
  }

  /** All four bytes 0xFF encode to "/////w==", so the code is the single character "w". */
  lemma OneCharacterCode()
    ensures GenerateShortCode([255, 255, 255, 255]) == "w"
  {
  }
}
