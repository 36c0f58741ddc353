/** How http_recv finds the file a request asks for: the Request-Line of section 5.1 of
    RFC 1945, cut up in place in the received segment. */
module RequestLine {
  import opened Common
  import opened Fs

  const METHOD: seq<Octet> := "GET "
  const INDEX: seq<Octet> := "/index.html"
  const NOT_FOUND: seq<Octet> := "/404.html"

  /** The first byte after the forty that are searched for the end of the URI. */
  const END: nat := 44

  predicate IsDelimiter(c: Octet) { c == ' ' || c == '\r' || c == '\n' }

  /** The bytes from the start of the payload up to a zero byte behind the part rewritten. */
  predicate Memory(mem: seq<Octet>) { |mem| > END && mem[|mem| - 1] == NUL }

  predicate IsGet(mem: seq<Octet>)
    requires Memory(mem)
  {
    mem[..4] == METHOD
  }

  /** The memory after the loop that ends the URI with zeros. */
  function Cut(mem: seq<Octet>): seq<Octet>
    requires Memory(mem)
  {
    seq(|mem|, i requires 0 <= i < |mem| => if 4 <= i < END && IsDelimiter(mem[i]) then NUL else mem[i])
  }

  /** The C string at the start of some memory. */
  function CString(b: seq<Octet>): seq<Octet> {
    if b == [] || b[0] == NUL then [] else [b[0]] + CString(b[1..])
  }

  /** The name http_recv passes to fs_open. */
  function Name(mem: seq<Octet>): seq<Octet>
    requires Memory(mem)
  {
    CString(Cut(mem)[4..])
  }

  predicate HasDefaults(fs: Files) { Has(fs, INDEX) && Has(fs, NOT_FOUND) }

  /** The file http_recv serves. */
  function Chosen(fs: Files, mem: seq<Octet>): seq<Octet>
    requires Memory(mem) && HasDefaults(fs)
  {
    if Cut(mem)[4] == '/' && Cut(mem)[5] == NUL then Data(fs, INDEX)
    else if Has(fs, Name(mem)) then Data(fs, Name(mem))
    else Data(fs, NOT_FOUND)
  }

  // ----- what the standard asks for --------------------------------------------------------

  /** What a request for a URI should get. */
  function Wanted(fs: Files, uri: seq<Octet>): seq<Octet>
    requires HasDefaults(fs)
  {
    if uri == "/" then Data(fs, "/index.html") else if Has(fs, uri) then Data(fs, uri) else Data(fs, "/404.html")
  }

  predicate IsUri(uri: seq<Octet>) {
    forall i :: 0 <= i < |uri| ==> uri[i] != NUL && !IsDelimiter(uri[i])
  }

  /** A segment that begins with a GET for this URI, followed by a space or a line end. */
  predicate Requests(mem: seq<Octet>, uri: seq<Octet>) {
    && Memory(mem) && IsUri(uri) && |uri| + 4 < |mem|
    && mem[..4] == "GET " && mem[4..4 + |uri|] == uri && IsDelimiter(mem[4 + |uri|])
  }

  lemma {:induction false} CStringEnds(b: seq<Octet>, n: nat)
    requires n < |b| && b[n] == NUL && NUL !in b[..n]
    ensures CString(b) == b[..n]
  {
    if n == 0 {
    } else {
      assert b[0] == b[..n][0] && b[1..][..n - 1] == b[..n][1..];
      CStringEnds(b[1..], n - 1);
    }
  }

  lemma {:induction false} CStringGoesOn(b: seq<Octet>, n: nat)
    requires n <= |b| && NUL !in b[..n]
    ensures |CString(b)| >= n
  {
    if n == 0 {
    } else {
      assert b[0] == b[..n][0] && b[1..][..n - 1] == b[..n][1..];
      CStringGoesOn(b[1..], n - 1);
    }
  }

  /** The URI reaches fs_open whole exactly when it has fewer than forty bytes; a longer one is
      passed on with what follows it. */
  lemma NameIsUriIff(mem: seq<Octet>, uri: seq<Octet>)
    requires Requests(mem, uri)
    ensures Name(mem) == uri <==> |uri| <= 39
    ensures |uri| > 39 ==> |Name(mem)| > |uri|
  {
    var b, n := Cut(mem)[4..], |uri|;
    assert forall i :: 0 <= i < n ==> b[i] == mem[4 + i] == mem[4..4 + n][i];
    assert b[..n] == uri;
    if n <= 39 {
      CStringEnds(b, n);
    } else {
      assert b[..n + 1] == uri + [mem[4 + n]];
      CStringGoesOn(b, n + 1);
    }
  }

  lemma {:induction false} NoLongName(fs: Files, name: seq<Octet>)
    requires forall k: nat :: k < Length(fs) ==> |At(fs, k).name| < |name|
    ensures !Has(fs, name)
  {
    if fs.Null? {
    } else {
      assert At(fs, 0) == fs;
      forall k: nat | k < Length(fs.next) ensures |At(fs.next, k).name| < |name| {
        assert At(fs.next, k) == At(fs, k + 1);
      }
      NoLongName(fs.next, name);
    }
  }

  /** In a file system whose names have fewer than forty bytes every GET gets what its URI asks
      for, whatever its length. */
  lemma EveryUriIsServed(fs: Files, mem: seq<Octet>, uri: seq<Octet>)
    requires HasDefaults(fs) && Requests(mem, uri) && uri != []
    requires forall k: nat :: k < Length(fs) ==> |At(fs, k).name| <= 39
    ensures Chosen(fs, mem) == Wanted(fs, uri)
  {
    NameIsUriIff(mem, uri);
    SlashIff(mem, uri);
    if |uri| > 39 {
      NoLongName(fs, uri);
      NoLongName(fs, Name(mem));
    }
  }

  lemma SlashIff(mem: seq<Octet>, uri: seq<Octet>)
    requires Requests(mem, uri) && uri != []
    ensures Cut(mem)[4] == '/' && Cut(mem)[5] == NUL <==> uri == "/"
  {
    assert mem[4] == mem[4..4 + |uri|][0];
    if |uri| > 1 {
      assert mem[5] == mem[4..4 + |uri|][1];
    }
  }

  // ----- the code --------------------------------------------------------------------------

  /** The loop that ends the URI, in the received segment itself. */
  method Rewrite(data: array<Octet>)
    requires Memory(data[..])
    modifies data
    ensures data[..] == Cut(old(data[..]))
  {
    for i := 0 to 40
      invariant forall k :: 0 <= k < data.Length ==>
                  data[k] == if 4 <= k < 4 + i && IsDelimiter(old(data[k])) then NUL else old(data[k])
    {
      if data[4 + i] == ' ' || data[4 + i] == '\r' || data[4 + i] == '\n' {
        data[4 + i] := NUL;
      }
    }
  }

  method StringAt(data: array<Octet>, start: nat) returns (s: seq<Octet>)
    requires start <= data.Length
    ensures s == CString(data[start..])
  {
    s := [];
    var i := start;
    while i < data.Length && data[i] != NUL
      invariant start <= i <= data.Length
      invariant s + CString(data[i..]) == CString(data[start..])
    {
      assert data[i..][0] == data[i] && data[i..][1..] == data[i + 1..];
      assert s + CString(data[i..]) == (s + [data[i]]) + CString(data[i + 1..]);
      s := s + [data[i]];
      i := i + 1;
    }
  }

  /** The part of http_recv that turns a GET into a file. */
  method Select(fs: Files, data: array<Octet>) returns (file: seq<Octet>)
    requires Memory(data[..]) && HasDefaults(fs)
    modifies data
    ensures file == Chosen(fs, old(data[..])) && data[..] == Cut(old(data[..]))
  {
    Rewrite(data);
    if data[4] == '/' && data[5] == NUL {
      var index := FsOpen(fs, INDEX);
      file := index.value;
    } else {
      var name := StringAt(data, 4);
      assert data[4..] == data[..][4..];
      var found := FsOpen(fs, name);
      if found == None {
        found := FsOpen(fs, NOT_FOUND);
      }
      file := found.value;
    }
  }
}
