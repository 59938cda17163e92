/**
 * The TIMIT phoneme table (src/timit/timitphn.c): the 64 phoneme names,
 * index 0 being the empty name, and the codec between a name and its index.
 */
module TimitPhn {
  import opened Common

  const NUMPHN: int := 64

  /** The names of phn2vusn, in table order. */
  const PHONEMES: seq<string> :=
    ["", "aa", "ae", "ah", "ao", "aw", "ax", "axr"] +
    ["ax-h", "ay", "b", "bcl", "ch", "d", "dcl", "dh"] +
    ["dx", "eh", "el", "em", "en", "eng", "er", "ey"] +
    ["f", "g", "gcl", "h", "hh", "hv", "ih", "ix"] +
    ["iy", "jh", "k", "kcl", "l", "m", "n", "ng"] +
    ["nx", "ow", "oy", "p", "pcl", "q", "r", "s"] +
    ["sh", "t", "tcl", "th", "uh", "uw", "ux", "v"] +
    ["w", "wh", "y", "z", "zh", "pau", "epi", "h#"]

  /** The index of the first entry of table equal to name, or -1 when there is none. */
  function IndexOf(table: seq<string>, name: string): (r: int)
    ensures -1 <= r < |table|
  {
    if |table| == 0 then -1
    else if table[0] == name then 0
    else var r := IndexOf(table[1..], name); if r < 0 then -1 else r + 1
  }

  /** IndexOf finds the first occurrence, and finds nothing only when name is absent. */
  lemma {:induction false} IndexOfIsFirst(table: seq<string>, name: string)
    ensures var r := IndexOf(table, name);
      (r == -1 <==> name !in table) &&
      (r >= 0 ==> table[r] == name && forall j :: 0 <= j < r ==> table[j] != name)
  {
    if |table| > 0 && table[0] != name {
      IndexOfIsFirst(table[1..], name);
      var r := IndexOf(table[1..], name);
      if r >= 0 {
        forall j | 0 <= j < r + 1
          ensures table[j] != name
        {
          if j > 0 {
            assert table[j] == table[1..][j - 1];
          }
        }
      }
      assert table == [table[0]] + table[1..];
    }
  }

  /** The search loop: the index of the first entry of table equal to name, or -1. */
  method Search(table: seq<string>, name: string) returns (r: int)
    ensures r == IndexOf(table, name)
  {
    var i := 0;
    while i < |table|
      invariant 0 <= i <= |table|
      invariant IndexOf(table, name) == IndexOf(table[i..], name) + (if IndexOf(table[i..], name) < 0 then 0 else i)
    {
      if table[i] == name {
        return i;
      }
      assert table[i..][1..] == table[i + 1..];
      i := i + 1;
    }
    r := -1;
  }

  /** encodePhoneme: scan the table in order and return the index of the first equal name, or -1. */
  method EncodePhoneme(phn: string) returns (r: int)
    ensures r == IndexOf(PHONEMES, phn)
    ensures r == -1 <==> phn !in PHONEMES
    ensures r >= 0 ==> r < NUMPHN && PHONEMES[r] == phn
  {
    IndexOfIsFirst(PHONEMES, phn);
    r := Search(PHONEMES, phn);
  }

  /** decodePhoneme: the name at index enc, or none (NULL) outside the table. */
  function DecodePhoneme(enc: int): (r: Option<string>)
    ensures r.None? <==> !(0 <= enc < NUMPHN)
    ensures r.Some? ==> r.value in PHONEMES
  {
    if enc < 0 || enc >= NUMPHN then None else Some(PHONEMES[enc])
  }

  /** Decoding the code of a table name gives the name back. */
  lemma DecodeEncode(phn: string)
    requires phn in PHONEMES
    ensures DecodePhoneme(IndexOf(PHONEMES, phn)) == Some(phn)
  {
    IndexOfIsFirst(PHONEMES, phn);
  }

  /** The empty name is entry 0. */
  lemma EmptyEncodesToZero()
    ensures IndexOf(PHONEMES, "") == 0
  {
  }

  /** A name outside the table has no code, and a code outside [0, NUMPHN) has no name. */
  lemma UnknownHasNoCode(phn: string, enc: int)
    requires phn !in PHONEMES && !(0 <= enc < NUMPHN)
    ensures IndexOf(PHONEMES, phn) == -1 && DecodePhoneme(enc) == None
  {
    IndexOfIsFirst(PHONEMES, phn);
  }

  /** One line of a phoneme file as scanned: the segment bounds and the name. */
  datatype PhnLine = PhnLine(startPos: int, endPos: int, name: string)

  /** One record: the segment bounds, the name and its code. */
  datatype PhnInfo = PhnInfo(startPos: int, endPos: int, phoneme: string, code: int)

  /**
   * The body of readPhonemeFile's record loop, for a line already scanned:
   * the record keeps the fields and stores the code of the name as its
   * label, -1 for an unknown name.
   */
  method StoreRecord(line: PhnLine) returns (info: PhnInfo)
    ensures info == PhnInfo(line.startPos, line.endPos, line.name, IndexOf(PHONEMES, line.name))
    ensures info.code == -1 <==> line.name !in PHONEMES
    ensures info.code >= 0 ==> DecodePhoneme(info.code) == Some(line.name)
  {
    var code := EncodePhoneme(line.name);
    info := PhnInfo(line.startPos, line.endPos, line.name, code);
  }

  /** The bytes of readPhonemeFile's phoneme buffer as written: char phoneme[4]. */
  const PHONEME_BUF: int := 4

  /** The bytes a buffer needs to hold every name of the table with its terminating NUL. */
  const PHONEME_BUF_NEEDED: int := 5

  /** The characters `%4s` keeps of a token: at most the first 4. */
  function ScanToken(token: string): (r: string)
    ensures |r| == Min(|token|, 4) && r == token[..|r|]
  {
    if |token| <= 4 then token else token[..4]
  }

  /** The bytes `%4s` stores for a token: the characters it keeps and a NUL. */
  function ScanStored(token: string): (n: nat)
    ensures n == |ScanToken(token)| + 1 && n <= 5
  {
    Min(|token|, 4) + 1
  }

  /**
   * The table's own "ax-h" overflows the buffer as written: `%4s` keeps all
   * four characters and stores five bytes into four.
   */
  lemma AxhOverflowsBuffer()
    ensures PHONEMES[8] == "ax-h" && ScanToken("ax-h") == "ax-h"
    ensures ScanStored("ax-h") == PHONEME_BUF + 1
  {
  }

  /**
   * With a buffer of PHONEME_BUF_NEEDED bytes every name of the table is
   * stored whole, NUL included, and scans back as itself, so its line gets
   * the name's own code.
   */
  lemma {:induction false} EveryPhonemeFits(k: int)
    requires 0 <= k < NUMPHN
    ensures ScanStored(PHONEMES[k]) <= PHONEME_BUF_NEEDED && ScanToken(PHONEMES[k]) == PHONEMES[k]
    ensures IndexOf(PHONEMES, ScanToken(PHONEMES[k])) == IndexOf(PHONEMES, PHONEMES[k])
  {
    assert |PHONEMES[k]| <= 4;
  }
}
