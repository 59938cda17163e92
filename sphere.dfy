/**
 * The NIST SPHERE header (src/audio/sphere.c): hdr2sf reads the
 * newline-terminated "key type value" lines of the 1024-byte header into
 * the SPHFILE fields, and openSphereFile checks the magic lines and the
 * sample coding. Opening and reading the file are parameters: the header
 * is None when the file could not be opened or was shorter than 1024 bytes.
 */
module Sphere {
  import opened Common

  const HEADER_SIZE: int := 1024
  /** The two lines every NIST_1A header starts with. */
  const LINE1: string := "NIST_1A"
  const LINE2: string := Blanks(3) + "1024"
  const MAGIC: string := LINE1 + "\n" + (LINE2 + "\n" + "")
  const U16: int := 0x1_0000
  const U32: int := 0x1_0000_0000

  // ---------------------------------------------------------------------
  // Scanning helpers: index(), the "%s %s %s" scan, atol, strncasecmp
  // ---------------------------------------------------------------------

  /** The first index of c in s, or -1 when c does not occur. */
  function Find(s: string, c: char): (r: int)
    ensures -1 <= r < |s|
    ensures r == -1 <==> c !in s
    ensures r >= 0 ==> s[r] == c && c !in s[..r]
  {
    if |s| == 0 then -1
    else if s[0] == c then 0
    else
      var r := Find(s[1..], c);
      assert s == [s[0]] + s[1..];
      if r < 0 then -1 else (assert s[..r + 1] == [s[0]] + s[1..][..r]; r + 1)
  }

  /** The C string held in s: everything before its first NUL. */
  function CString(s: string): (r: string)
    ensures '\0' !in r && r <= s
  {
    var n := Find(s, '\0');
    if n < 0 then s else s[..n]
  }

  /** n spaces. */
  function Blanks(n: nat): (r: string)
    ensures |r| == n && forall i :: 0 <= i < n ==> r[i] == ' '
  {
    seq(n, i => ' ')
  }

  /** White space as sscanf's %s skips it. */
  predicate IsSpace(c: char)
  {
    c == ' ' || c == '\t' || c == '\n' || c == '\r' || c as int == 11 || c as int == 12
  }

  /** s without its leading white space. */
  function TrimLeft(s: string): (r: string)
    ensures |r| <= |s| && r == s[|s| - |r|..]
    ensures |r| > 0 ==> !IsSpace(r[0])
  {
    if |s| > 0 && IsSpace(s[0]) then TrimLeft(s[1..]) else s
  }

  /** The leading run of non-space characters of s. */
  function Word(s: string): (r: string)
    ensures r <= s
    ensures forall i :: 0 <= i < |r| ==> !IsSpace(r[i])
    ensures |r| < |s| ==> IsSpace(s[|r|])
  {
    if |s| == 0 || IsSpace(s[0]) then "" else [s[0]] + Word(s[1..])
  }

  /** One %s conversion: the next word of s and what follows it ("" and "" when s has no more words). */
  function NextWord(s: string): (r: (string, string))
    ensures |r.1| <= |s|
  {
    var t := TrimLeft(s);
    var w := Word(t);
    (w, t[|w|..])
  }

  /** e1 of the "%s %s %s" scan of a line: its first word, "" when it has none. */
  function Key(line: string): string
  {
    NextWord(line).0
  }

  /** e3 of the scan: the third word of the line, "" when it has fewer. */
  function Third(line: string): string
  {
    NextWord(NextWord(NextWord(line).1).1).0
  }

  predicate IsDigit(c: char)
  {
    '0' <= c <= '9'
  }

  /** The leading run of decimal digits of s. */
  function LeadingDigits(s: string): (r: string)
    ensures r <= s
    ensures forall i :: 0 <= i < |r| ==> IsDigit(r[i])
    ensures |r| < |s| ==> !IsDigit(s[|r|])
  {
    if |s| == 0 || !IsDigit(s[0]) then "" else [s[0]] + LeadingDigits(s[1..])
  }

  /** The value of a decimal digit. */
  function Digit(c: char): (v: nat)
    requires IsDigit(c)
    ensures v < 10
  {
    c as int - '0' as int
  }

  /** The value of a run of decimal digits. */
  function Value(d: string): (n: nat)
    requires forall i :: 0 <= i < |d| ==> IsDigit(d[i])
  {
    if |d| == 0 then 0 else 10 * Value(d[..|d| - 1]) + Digit(d[|d| - 1])
  }

  /** atol on a word: an optional sign, then the leading digits; 0 when there are none. */
  function Atol(s: string): int
  {
    if |s| > 0 && s[0] == '-' then -(Value(LeadingDigits(s[1..])) as int)
    else if |s| > 0 && s[0] == '+' then Value(LeadingDigits(s[1..]))
    else Value(LeadingDigits(s))
  }

  /** The decimal rendering of n, with no leading zeros. */
  function Decimal(n: nat): (d: string)
    ensures |d| > 0 && forall i :: 0 <= i < |d| ==> IsDigit(d[i])
  {
    if n < 10 then [('0' as int + n) as char]
    else Decimal(n / 10) + [('0' as int + n % 10) as char]
  }

  /** The digits of a decimal rendering are all leading digits. */
  lemma {:induction false} LeadingDigitsOfDigits(d: string)
    requires forall i :: 0 <= i < |d| ==> IsDigit(d[i])
    ensures LeadingDigits(d) == d
  {
    if |d| > 0 {
      LeadingDigitsOfDigits(d[1..]);
    }
  }

  /** The value of a rendering is the number rendered. */
  lemma {:induction false} ValueOfDecimal(n: nat)
    ensures Value(Decimal(n)) == n
  {
    if n >= 10 {
      ValueOfDecimal(n / 10);
      var d := Decimal(n);
      assert d[..|d| - 1] == Decimal(n / 10);
    }
  }

  /** atol reads back every rendered number, with either sign. */
  lemma AtolDecimal(n: nat)
    ensures Atol(Decimal(n)) == n
    ensures Atol("-" + Decimal(n)) == -(n as int)
  {
    LeadingDigitsOfDigits(Decimal(n));
    ValueOfDecimal(n);
    assert ("-" + Decimal(n))[1..] == Decimal(n);
  }

  /** strncasecmp(s, p, |p|) == 0 for a lower-case p with no NUL: s starts with p, ignoring case. */
  predicate StartsNoCase(s: string, p: string)
  {
    |s| >= |p| && forall i :: 0 <= i < |p| ==> Lower(s[i]) == p[i]
  }

  /** The audioFormat a sample_coding value selects: PCM 1, float 3, mu-law 7, otherwise 0. */
  function Coding(e3: string): int
  {
    if StartsNoCase(e3, "pcm") then 1
    else if StartsNoCase(e3, "float") then 3
    else if StartsNoCase(e3, "ulaw") then 7
    else 0
  }

  /** The coding ignores case and anything after the name, and has only four outcomes. */
  lemma CodingIgnoresCase(a: string, b: string)
    requires |a| == |b| && forall i :: 0 <= i < |a| ==> Lower(a[i]) == Lower(b[i])
    ensures Coding(a) == Coding(b)
    ensures Coding(a) in {0, 1, 3, 7}
    ensures Coding(a + b) == Coding(a) || |a| < 5
  {
    assert forall i :: 0 <= i < |a| ==> (a + b)[i] == a[i];
  }

  // ---------------------------------------------------------------------
  // The header walk
  // ---------------------------------------------------------------------

  /** What hdr2sf has read so far: the fields it sets and its two locals. */
  datatype Header = Header(audioFormat: int, numChannels: int, sampleRate: int, endianess: char,
                           sampleNbytes: int, sampleCount: int)

  /** The byte format sample_byte_format selects: 'b' exactly when the value starts with '1'. */
  function ByteFormat(e3: string): char
  {
    if |e3| > 0 && e3[0] == '1' then 'b' else 'l'
  }

  /** The field a key names set from the value e3; any other key changes nothing. */
  function Set(h: Header, key: string, e3: string): Header
  {
    if key == "sample_coding" then h.(audioFormat := Coding(e3))
    else if key == "channel_count" then h.(numChannels := Atol(e3) % U16)
    else if key == "sample_rate" then h.(sampleRate := Atol(e3) % U32)
    else if key == "sample_n_bytes" then h.(sampleNbytes := Atol(e3))
    else if key == "sample_count" then h.(sampleCount := Atol(e3))
    else if key == "sample_byte_format" then h.(endianess := ByteFormat(e3))
    else h
  }

  /** The field hdr2sf sets for the key e1 of a line with third word e3. */
  method SetKey(h: Header, e1: string, e3: string) returns (r: Header)
    ensures r == Set(h, e1, e3)
  {
    r := h;
    if e1 == "sample_coding" {
      r := r.(audioFormat := Coding(e3));
    } else if e1 == "channel_count" {
      r := r.(numChannels := Atol(e3) % U16);
    } else if e1 == "sample_rate" {
      r := r.(sampleRate := Atol(e3) % U32);
    } else if e1 == "sample_n_bytes" {
      r := r.(sampleNbytes := Atol(e3));
    } else if e1 == "sample_count" {
      r := r.(sampleCount := Atol(e3));
    } else if e1 == "sample_byte_format" {
      r := r.(endianess := ByteFormat(e3));
    }
  }

  /** One header line applied to the state: the key is its first word, the value its third. */
  function Apply(h: Header, line: string): Header
  {
    Set(h, Key(line), Third(line))
  }

  /** A key starting with none of 's', 'c' and 'e' names no field and is not end_head. */
  lemma UnknownKey(h: Header, key: string, e3: string)
    requires |key| > 0 && key[0] != 's' && key[0] != 'c' && key[0] != 'e'
    ensures Set(h, key, e3) == h && key != "end_head"
  {
  }

  /** Whether a line is the end_head line. */
  predicate EndsHead(line: string)
  {
    Key(line) == "end_head"
  }

  /** The lines of text applied in order, up to the end_head line or the first line with no newline. */
  function Scan(text: string, h: Header): Header
    decreases |text|
  {
    var p := Find(text, '\n');
    if p < 0 then h
    else if EndsHead(text[..p]) then h
    else Scan(text[p + 1..], Apply(h, text[..p]))
  }

  /** The search for c in a text that reaches c only after a prefix without it. */
  lemma {:induction false} FindAfter(pre: string, rest: string, c: char)
    requires c !in pre && |rest| > 0 && rest[0] == c
    ensures Find(pre + rest, c) == |pre|
  {
    if |pre| > 0 {
      assert (pre + rest)[1..] == pre[1..] + rest;
      FindAfter(pre[1..], rest, c);
    }
  }

  /** Scanning a newline-terminated line: stop at end_head, otherwise apply it and go on. */
  lemma ScanLine(line: string, rest: string, h: Header)
    requires '\n' !in line
    ensures Scan(line + "\n" + rest, h) ==
      if EndsHead(line) then h else Scan(rest, Apply(h, line))
  {
    var text := line + "\n" + rest;
    assert text == line + ("\n" + rest);
    FindAfter(line, "\n" + rest, '\n');
    assert text[..|line|] == line;
    assert text[|line| + 1..] == rest;
  }

  /** Nothing after the end_head line is read. */
  lemma EndHeadStops(line: string, rest: string, h: Header)
    requires '\n' !in line && EndsHead(line)
    ensures Scan(line + "\n" + rest, h) == h
  {
    ScanLine(line, rest, h);
  }

  /** A last line with no newline is ignored. */
  lemma UnterminatedIgnored(text: string, h: Header)
    requires '\n' !in text
    ensures Scan(text, h) == h
  {
  }

  /** The SPHFILE fields hdr2sf sets. */
  datatype Info = Info(audioFormat: int, numChannels: int, sampleRate: int, endianess: char,
                       bitDepth: int, dataSize: int)

  /**
   * What hdr2sf stores after the walk: the bit depth and data size in their
   * 16- and 32-bit fields, and PCM assumed for an unknown coding of 2-byte
   * samples.
   */
  function Finish(h: Header): Info
  {
    Info(if h.audioFormat == 0 && h.sampleNbytes == 2 then 1 else h.audioFormat,
         h.numChannels, h.sampleRate, h.endianess,
         (h.sampleNbytes * 8) % U16, (h.sampleCount * h.sampleNbytes - 1024) % U32)
  }

  /** The format is PCM exactly when the coding said so, or it was unknown and samples have 2 bytes. */
  lemma PcmWhenAssumed(h: Header)
    ensures Finish(h).audioFormat == 1 <==>
      h.audioFormat == 1 || (h.audioFormat == 0 && h.sampleNbytes == 2)
  {
  }

  /** For a sample size below 8192 bytes the bit depth gives the size back, and the data size is the sample bytes less the header. */
  lemma SampleSizeRecovered(h: Header)
    requires 1 <= h.sampleNbytes < 8192
    requires 1024 <= h.sampleCount * h.sampleNbytes < U32 + 1024
    ensures Finish(h).bitDepth / 8 == h.sampleNbytes
    ensures Finish(h).dataSize + 1024 == h.sampleCount * h.sampleNbytes
  {
  }

  /** Without a sample size the bit depth is 0. */
  lemma NoSizeNoDepth(h: Header)
    requires h.sampleNbytes == 0
    ensures Finish(h).bitDepth == 0
  {
  }

  /** The header's text: its first 1023 bytes up to the first NUL (hdr2sf puts a NUL at 1023). */
  function HeaderText(header: string): string
    requires |header| == HEADER_SIZE
  {
    CString(header[..HEADER_SIZE - 1])
  }

  /** The fields after hdr2sf, from fields sf already had. */
  function Parse(header: string, sf: Info): Info
    requires |header| == HEADER_SIZE
  {
    Finish(Scan(HeaderText(header), Header(sf.audioFormat, sf.numChannels, sf.sampleRate, sf.endianess, 0, 0)))
  }

  /** A SPHFILE as openSphereFile leaves it; the file handle is not modelled. */
  class SphFile {
    var audioFormat: int
    var numChannels: int
    var sampleRate: int
    var bitDepth: int
    var dataSize: int
    var numSamplesPerChannel: int
    var numSamples: int
    var endianess: char
    var mode: char

    function Fields(): Info
      reads this
    {
      Info(audioFormat, numChannels, sampleRate, endianess, bitDepth, dataSize)
    }

    /** A cleared SPHFILE, as memset leaves it. */
    constructor ()
      ensures Fields() == Info(0, 0, 0, '\0', 0, 0)
      ensures numSamplesPerChannel == 0 && numSamples == 0 && mode == '\0'
    {
      audioFormat, numChannels, sampleRate, bitDepth, dataSize := 0, 0, 0, 0, 0;
      numSamplesPerChannel, numSamples := 0, 0;
      endianess, mode := '\0', '\0';
    }

    /** memset(sf, 0, sizeof(*sf)). */
    method Clear()
      modifies this
      ensures Fields() == Info(0, 0, 0, '\0', 0, 0)
      ensures numSamplesPerChannel == 0 && numSamples == 0 && mode == '\0'
    {
      audioFormat, numChannels, sampleRate, bitDepth, dataSize := 0, 0, 0, 0, 0;
      numSamplesPerChannel, numSamples := 0, 0;
      endianess, mode := '\0', '\0';
    }

    /**
     * hdr2sf: walk the header line by line, setting the field each key
     * names, until end_head or a line with no newline; then store the bit
     * depth and data size.
     */
    method Hdr2Sf(header: string)
      requires |header| == HEADER_SIZE
      modifies this
      ensures Fields() == Parse(header, old(Fields()))
      ensures numSamplesPerChannel == old(numSamplesPerChannel) && numSamples == old(numSamples)
      ensures mode == old(mode)
    {
      var h := Header(audioFormat, numChannels, sampleRate, endianess, 0, 0);
      ghost var h0 := h;
      var rest := HeaderText(header);
      while |rest| > 0
        invariant Scan(HeaderText(header), h0) == Scan(rest, h) && unchanged(this)
        decreases |rest|
      {
        var p := Find(rest, '\n');
        if p < 0 {
          break;
        }
        if EndsHead(rest[..p]) {
          break;
        }
        h := SetKey(h, Key(rest[..p]), Third(rest[..p]));
        rest := rest[p + 1..];
      }
      assert Scan(HeaderText(header), h0) == h;
      Store(h);
    }

    /** The tail of hdr2sf: the fields the lines set, the bit depth, the data size and the PCM default. */
    method Store(h: Header)
      modifies this
      ensures Fields() == Finish(h)
      ensures numSamplesPerChannel == old(numSamplesPerChannel) && numSamples == old(numSamples)
      ensures mode == old(mode)
    {
      audioFormat, numChannels, sampleRate, endianess := h.audioFormat, h.numChannels, h.sampleRate, h.endianess;
      bitDepth := (h.sampleNbytes * 8) % U16;
      dataSize := (h.sampleCount * h.sampleNbytes - 1024) % U32;
      if audioFormat == 0 && h.sampleNbytes == 2 {
        audioFormat := 1;
      }
    }

    /**
     * openSphereFile: clear the structure; refuse a mode other than 'r', a
     * file that cannot be read, and a header not starting with the two
     * NIST_1A lines; parse the header; refuse a header whose sample size
     * gives no whole bytes per sample (the division below would be by
     * zero), then any format but PCM. On success the sample counts are set.
     */
    method OpenSphereFile(mode: char, header: Option<string>) returns (ok: bool)
      requires header.Some? ==> |header.value| == HEADER_SIZE
      modifies this
      ensures ok <==> mode == 'r' && header.Some? && Accepted(header.value)
      ensures !(mode == 'r' && header.Some? && header.value[..16] == MAGIC) ==>
        Fields() == Info(0, 0, 0, '\0', 0, 0) && this.mode == '\0'
      ensures mode == 'r' && header.Some? && header.value[..16] == MAGIC ==>
        Fields() == Parse(header.value, Info(0, 0, 0, '\0', 0, 0))
      ensures ok ==> this.mode == 'r' && bitDepth / 8 != 0
      ensures ok ==> numSamplesPerChannel == dataSize / (bitDepth / 8)
      ensures ok ==> numSamples == (numSamplesPerChannel * numChannels) % U32
    {
      Clear();
      if mode != 'r' || header.None? {
        return false;
      }
      var hdr := header.value;
      if hdr[..16] != MAGIC {
        return false;
      }
      Hdr2Sf(hdr);
      ok := CountSamples();
      if ok {
        this.mode := mode;
      }
    }

    /**
     * The checks after hdr2sf: no bytes per sample fails (where the source
     * would divide by zero), then the sample counts are set and any format
     * but PCM fails.
     */
    method CountSamples() returns (ok: bool)
      modifies this
      ensures Fields() == old(Fields()) && mode == old(mode)
      ensures ok <==> bitDepth / 8 != 0 && audioFormat == 1
      ensures ok ==> numSamplesPerChannel == dataSize / (bitDepth / 8)
      ensures ok ==> numSamples == (numSamplesPerChannel * numChannels) % U32
    {
      if bitDepth / 8 == 0 {
        return false;
      }
      numSamplesPerChannel := dataSize / (bitDepth / 8);
      numSamples := (numSamplesPerChannel * numChannels) % U32;
      ok := audioFormat == 1;
    }
  }

  /** The headers openSphereFile accepts: the magic lines, a whole number of bytes per sample, PCM. */
  predicate Accepted(header: string)
    requires |header| == HEADER_SIZE
  {
    var info := Parse(header, Info(0, 0, 0, '\0', 0, 0));
    header[..16] == MAGIC && info.bitDepth / 8 != 0 && info.audioFormat == 1
  }

  /**
   * numSamplesPerChannel as openSphereFile computes it, with no guard:
   * None where the divisor bitDepth / 8 is 0, a division by zero in C.
   */
  function SamplesPerChannelAsWritten(info: Info): Option<int>
  {
    if info.bitDepth / 8 == 0 then None else Some(info.dataSize / (info.bitDepth / 8))
  }

  /** A header of just the two magic lines, padded with NULs. */
  function MagicOnly(): (header: string)
    ensures |header| == HEADER_SIZE
  {
    MAGIC + seq(HEADER_SIZE - |MAGIC|, _ => '\0')
  }

  /** The text of the magic-only header is the two magic lines. */
  lemma MagicOnlyText(header: string)
    requires header == MagicOnly()
    ensures HeaderText(header) == MAGIC
  {
    var pad := seq(HEADER_SIZE - 1 - |MAGIC|, _ => '\0');
    assert header[..HEADER_SIZE - 1] == MAGIC + pad;
    assert '\0' !in MAGIC;
    FindAfter(MAGIC, pad, '\0');
    assert (MAGIC + pad)[..|MAGIC|] == MAGIC;
  }

  /** Leading white space is what TrimLeft drops. */
  lemma {:induction false} TrimSpaces(s: string, n: nat)
    requires n < |s| && !IsSpace(s[n])
    requires forall i :: 0 <= i < n ==> IsSpace(s[i])
    ensures TrimLeft(s) == s[n..]
  {
    if n > 0 {
      TrimSpaces(s[1..], n - 1);
      assert s[1..][n - 1..] == s[n..];
    }
  }

  /** A line whose first word starts with none of 's', 'c' and 'e' sets nothing and does not end the header. */
  lemma NotAKey(h: Header, line: string, n: nat)
    requires n < |line| && !IsSpace(line[n]) && line[n] != 's' && line[n] != 'c' && line[n] != 'e'
    requires forall i :: 0 <= i < n ==> IsSpace(line[i])
    ensures Apply(h, line) == h && !EndsHead(line)
  {
    TrimSpaces(line, n);
    assert Key(line)[0] == line[n];
    UnknownKey(h, Key(line), Third(line));
  }

  /** Neither magic line holds a newline. */
  lemma MagicLinesPlain()
    ensures '\n' !in LINE1 && '\n' !in LINE2
  {
  }

  /** The first magic line names no field. */
  lemma MagicLine1(h: Header)
    ensures Apply(h, LINE1) == h && !EndsHead(LINE1)
  {
    NotAKey(h, LINE1, 0);
  }

  /** The second magic line names no field. */
  lemma MagicLine2(h: Header)
    ensures Apply(h, LINE2) == h && !EndsHead(LINE2)
  {
    NotAKey(h, LINE2, 3);
  }

  /** Neither magic line is a key hdr2sf knows, so scanning them changes nothing. */
  lemma ScanMagic(h: Header)
    ensures Scan(MAGIC, h) == h
  {
    MagicLinesPlain();
    MagicLine1(h);
    MagicLine2(h);
    ScanLine(LINE1, LINE2 + "\n" + "", h);
    ScanLine(LINE2, "", h);
  }

  /**
   * A header holding only the two magic lines passes the magic check,
   * yet leaves the sample size 0, so the unguarded division divides by zero.
   */
  lemma MagicOnlyDividesByZero(header: string, cleared: Info)
    requires header == MagicOnly() && cleared == Info(0, 0, 0, '\0', 0, 0)
    ensures header[..16] == MAGIC
    ensures SamplesPerChannelAsWritten(Parse(header, cleared)).None?
    ensures !Accepted(header)
  {
    var h0 := Header(cleared.audioFormat, cleared.numChannels, cleared.sampleRate, cleared.endianess, 0, 0);
    MagicOnlyText(header);
    ScanMagic(h0);
    assert Scan(HeaderText(header), h0) == h0;
    assert Parse(header, cleared) == Finish(h0);
    NoSizeNoDepth(h0);
  }
}
