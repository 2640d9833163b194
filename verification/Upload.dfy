/** The upload size limit and the sample taken in front of it, for any way the body arrives. */
module Upload {
  import opened Common
  import opened Streams

  /** How a limited stream ends: as the source does, or because it was too large. */
  datatype LimitedStatus = Still | End | Failure | TooLarge

  function Lift(s: Status): LimitedStatus {
    match s
    case More => Still
    case Eof => End
    case Broken => Failure
  }

  /** What a reader limited to `max` bytes must deliver, and how it must end. */
  function LimitedContent(script: seq<Piece>, max: nat): Bytes {
    var c := Content(script);
    if |c| <= max then c else c[..max]
  }

  function LimitedEnding(script: seq<Piece>, max: nat): LimitedStatus {
    if |Content(script)| <= max then Lift(Ending(script)) else TooLarge
  }

  class UploadLimitReader {
    const r: Source
    var remaining: nat

    constructor (r: Source, remaining: nat)
      ensures this.r == r && this.remaining == remaining
    {
      this.r, this.remaining := r, remaining;
    }

    ghost function Rest(): Bytes
      reads this, r
    {
      LimitedContent(r.script, remaining)
    }

    ghost function Outcome(): LimitedStatus
      reads this, r
    {
      LimitedEnding(r.script, remaining)
    }

    /** With nothing left to allow, one byte of the source is probed: only a byte that exists makes
        the upload too large. The probe loop ends because a finite stream stalls finitely often. */
    method Read(n: nat) returns (data: Bytes, status: LimitedStatus)
      modifies this, r
      ensures |data| <= n
      ensures status == Still ==> data + Rest() == old(Rest()) && Outcome() == old(Outcome())
      ensures status != Still ==> data == old(Rest()) && status == old(Outcome())
      ensures status == TooLarge ==> data == []
      ensures status == End ==> r.script == []
      ensures n > 0 && status == Still ==> Work(r.script) < Work(old(r.script))
    {
      if remaining == 0 {
        while true
          invariant Content(r.script) == Content(old(r.script)) && Ending(r.script) == Ending(old(r.script))
          invariant remaining == 0
          decreases Work(r.script)
        {
          var probe, s := r.Read(1);
          if |probe| > 0 {
            return [], TooLarge;
          }
          if s != More {
            return [], Lift(s);
          }
        }
      }
      ghost var was, allowed := Content(r.script), remaining;
      var s;
      data, s := r.Read(if n > remaining then remaining else n);
      remaining := remaining - |data|;
      status := Lift(s);
      if s == More {
        assert was == data + Content(r.script);
        assert |was| > allowed ==> was[..allowed] == data + Content(r.script)[..remaining];
      }
    }
  }

  /** `io.ReadAll` over `io.LimitReader`: at most `max` bytes, and the error if one came first.
      The buffers may have any sizes that leave room. */
  method ReadSample(r: UploadLimitReader, max: nat, sizes: nat -> nat) returns (sample: Bytes, status: LimitedStatus)
    requires forall i :: sizes(i) > 0
    modifies r, r.r
    ensures status == Still ==> |sample| == max && sample + r.Rest() == old(r.Rest()) && r.Outcome() == old(r.Outcome())
    ensures status != Still ==> |sample| <= max && sample == old(r.Rest()) && status == old(r.Outcome())
    ensures status == TooLarge ==> |sample| < max
    ensures status == End ==> r.r.script == []
  {
    sample, status := [], Still;
    var i := 0;
    ghost var whole, fate := r.Rest(), r.Outcome();
    ghost var left := whole;
    while status == Still && |sample| < max
      invariant |sample| <= max && sample + left == whole
      invariant status == Still ==> left == r.Rest() && fate == r.Outcome()
      invariant status != Still ==> left == [] && fate == status
      invariant status == TooLarge ==> |sample| < max
      invariant status == End ==> r.r.script == []
      decreases status == Still, Work(r.r.script)
    {
      var data, s := r.Read(Min(sizes(i), max - |sample|));
      ghost var after := if s == Still then r.Rest() else [];
      assert left == data + after;
      Regroup(sample, data, after);
      sample, left, status, i := sample + data, after, s, i + 1;
    }
    assert status != Still ==> sample == sample + left;
  }

  /** A prepared upload: the sample again, then the limited rest. After the source has ended
      within the sample the rest is empty and ends the same way. */
  datatype Prepared =
    | Rejected(error: LimitedStatus)
    | Ready(sample: Bytes, rest: UploadLimitReader)

  method PrepareTextUploadReader(reader: Source, maxBytes: nat, sampleLimit: nat, sizes: nat -> nat)
    returns (p: Prepared)
    requires forall i :: sizes(i) > 0
    modifies reader
    ensures var c := Content(old(reader.script)); var ending := Ending(old(reader.script));
      if sampleLimit > maxBytes && |c| > maxBytes then p == Rejected(TooLarge)
      else if |c| < sampleLimit && ending == Broken then p == Rejected(Failure)
      else (|c| == sampleLimit && ending == Broken) || p.Ready?  // an error may come with the sample's last byte
    ensures p.Ready? ==> p.sample == Content(old(reader.script))[..Min(sampleLimit, |Content(old(reader.script))|)]
    ensures p.Ready? ==>
      && fresh(p.rest) && p.rest.r == reader
      && p.sample + p.rest.Rest() == LimitedContent(old(reader.script), maxBytes)
      && p.rest.Outcome() == LimitedEnding(old(reader.script), maxBytes)
    ensures p.Rejected? ==> p.error == LimitedEnding(old(reader.script), maxBytes) && p.error != End
  {
    var limited := new UploadLimitReader(reader, maxBytes);
    ghost var c := Content(reader.script);
    var sample, status := ReadSample(limited, sampleLimit, sizes);
    if status == Failure || status == TooLarge {
      return Rejected(status);
    }
    assert status == End ==> sample + limited.Rest() == sample;
    if status == Still {
      assert sample == (sample + limited.Rest())[..sampleLimit];
    }
    p := Ready(sample, limited);
  }

  method ReadRest(rest: UploadLimitReader, sizes: nat -> nat) returns (data: Bytes, status: LimitedStatus)
    requires forall i :: sizes(i) > 0
    modifies rest, rest.r
    ensures data == old(rest.Rest()) && status == old(rest.Outcome())
  {
    data, status := [], Still;
    ghost var whole, fate := rest.Rest(), rest.Outcome();
    ghost var left := whole;
    var i := 0;
    while status == Still
      invariant data + left == whole
      invariant status == Still ==> left == rest.Rest() && fate == rest.Outcome()
      invariant status != Still ==> left == [] && fate == status
      decreases status == Still, Work(rest.r.script)
    {
      var piece, s := rest.Read(sizes(i));
      ghost var after := if s == Still then rest.Rest() else [];
      assert left == piece + after;
      Regroup(data, piece, after);
      data, left, status, i := data + piece, after, s, i + 1;
    }
    assert data == data + left;
  }

  /** Prepare and read to the end: a body of at most `maxBytes` comes out unchanged and ends as the
      source does; a longer one gives exactly its first `maxBytes` bytes and then the size error,
      unless that error, or the source's, already came out of the preparation. */
  method Upload(reader: Source, maxBytes: nat, sampleLimit: nat, sizes: nat -> nat)
    returns (body: Bytes, ending: LimitedStatus, rejected: bool)
    requires forall i :: sizes(i) > 0
    modifies reader
    ensures var c := Content(old(reader.script)); var ends := Ending(old(reader.script));
      if |c| <= maxBytes then
        && ending == (if ends == Eof then End else Failure)
        && (!rejected ==> body == c) && (rejected ==> ends == Broken)
      else ending == TooLarge && (!rejected ==> body == c[..maxBytes])
  {
    var p := PrepareTextUploadReader(reader, maxBytes, sampleLimit, sizes);
    if p.Rejected? {
      return [], p.error, true;
    }
    var data, status := ReadRest(p.rest, sizes);
    body, ending, rejected := p.sample + data, status, false;
  }
}
