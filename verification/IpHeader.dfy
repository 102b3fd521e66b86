/** The IPv4 header checksum: filling it in and checking it, in place.
    Both cover the first 20 bytes of the header, options or not. */
module IpHeader {
  import opened Words
  import opened Sums
  import opened OnesComplement
  import opened Checksum

  type Header = h: seq<byte> | |h| >= 20 witness seq(20, _ => 0)

  function Stored(h: Header): word {
    Pair(h[10], h[11])
  }

  function WithChecksum(h: Header, c: word): Header {
    h[10 := c % 0x100][11 := c / 0x100]
  }

  /** What the sender computes: the checksum of the 20 bytes with the field zeroed. */
  function Expected(h: Header): word {
    Reference(WithChecksum(h, 0)[..20])
  }

  /** What validate_checksum answers. */
  predicate Accepts(h: Header) {
    Expected(h) == Stored(h)
  }

  method SetChecksum(header: array<byte>, c: word)
    requires header.Length >= 20
    modifies header
    ensures header[..] == WithChecksum(old(header[..]), c)
  {
    header[10], header[11] := c % 0x100, c / 0x100;
  }

  /** Zeroes the field, computes, restores the field, compares. */
  method ValidateChecksum(header: array<byte>) returns (ok: bool)
    requires header.Length >= 20
    modifies header
    ensures header[..] == old(header[..])
    ensures ok <==> Accepts(header[..])
  {
    var original := Pair(header[10], header[11]);
    SetChecksum(header, 0);
    var calculated := CalculateChecksum(header, 20);
    assert Taken(header[..], 20) == WithChecksum(old(header[..]), 0)[..20];
    SetChecksum(header, original);
    assert header[..] == old(header[..]);
    ok := calculated == original;
  }

  /** The last step of create_sample_packet, for any header. */
  method FillChecksum(header: array<byte>)
    requires header.Length >= 20
    modifies header
    ensures header[..] == WithChecksum(old(header[..]), Expected(old(header[..])))
    ensures Accepts(header[..])
  {
    SetChecksum(header, 0);
    var c := CalculateChecksum(header, 20);
    assert Taken(header[..], 20) == WithChecksum(old(header[..]), 0)[..20];
    SetChecksum(header, c);
    FilledIsAccepted(old(header[..]));
  }

  lemma StoredIs(h: Header, c: word)
    ensures Stored(WithChecksum(h, c)) == c
  {
  }

  lemma FilledIsAccepted(h: Header)
    ensures Accepts(WithChecksum(h, Expected(h)))
  {
    var f := WithChecksum(h, Expected(h));
    assert WithChecksum(f, 0) == WithChecksum(h, 0);
    StoredIs(h, Expected(h));
  }

  /** The field is the sixth word of the header. */
  lemma FieldIsWord(h: Header, c: word)
    ensures HostWords(WithChecksum(h, c)[..20]) == HostWords(h[..20])[5 := c]
  {
    WordsSplit(h[..20], 10);
    WordsSplit(WithChecksum(h, c)[..20], 10);
    assert WithChecksum(h, c)[..20][..10] == h[..20][..10];
    assert WithChecksum(h, c)[..20][12..] == h[..20][12..];
    StoredIs(h, c);
  }

  lemma WordsSplit(b: seq<byte>, at: nat)
    requires at % 2 == 0 && at + 2 <= |b|
    ensures HostWords(b) == HostWords(b[..at]) + [Pair(b[at], b[at + 1])] + HostWords(b[at + 2..])
  {
    assert b == b[..at] + b[at..];
    HostWordsAppend(b[..at], b[at..]);
    assert b[at..][2..] == b[at + 2..];
  }

  /** The receiver's sum over all 20 bytes. */
  function ReceiverSum(h: Header): word {
    EacSum(HostWords(h[..20]))
  }

  /** Section 5 of RFC 1624: comparing with a recomputed checksum is the receiver's
      sum being 0xFFFF, except that it turns down 0xFFFF stored where 0x0000 was due. */
  lemma AcceptsIffSumIsAllOnes(h: Header)
    ensures Accepts(h) <==>
            ReceiverSum(h) == 0xFFFF && !(Stored(h) == 0xFFFF && Total(WithChecksum(h, 0)[..20]) != 0)
  {
    var ws := HostWords(h[..20]);
    FieldIsWord(h, 0);
    WordsSplit(h[..20], 10);
    assert ws[5] == Stored(h);
    SumUpdate(ws, 5, 0);
    DeferredCarries(ws);
    DeferredCarries(ws[5 := 0]);
    FoldedAdd(Sum(ws[5 := 0]), Stored(h));
  }

  /** In a header whose checksum is right, changing one other word goes unnoticed
      exactly when it swaps 0x0000 and 0xFFFF and some other word is not zero. */
  lemma CorruptionGoesUnnoticedIff(h: Header, corrupted: Header, i: nat)
    requires Accepts(h) && i < 10 && i != 5
    requires Stored(corrupted) == Stored(h)
    requires HostWords(corrupted[..20]) == HostWords(h[..20])[i := HostWords(corrupted[..20])[i]]
    requires HostWords(corrupted[..20])[i] != HostWords(h[..20])[i]
    ensures Accepts(corrupted) <==>
            && (HostWords(h[..20])[i], HostWords(corrupted[..20])[i]) in {(0, 0xFFFF), (0xFFFF, 0)}
            && Sum(HostWords(h[..20])[5 := 0][i := 0]) != 0
  {
    var ws, m' := HostWords(h[..20]), HostWords(corrupted[..20])[i];
    FieldIsWord(h, 0);
    FieldIsWord(corrupted, 0);
    assert HostWords(corrupted[..20])[5 := 0] == ws[5 := 0][i := m'];
    UndetectedChange(ws[5 := 0], i, m');
  }
}
