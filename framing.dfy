/** Framing shared by server and client: a frame is a text followed by the
    delimiter U+1F631 (written in Java as the surrogate pair 😱, one
    character here), and a batch of frames is read back with String.split on
    the delimiter. */
module Framing {
  import opened JavaLang
  import opened Sequences

  /** ChatServer.delimiter. */
  const Delim: char := '\U{1F631}'

  /** What `send` and `respond` put on the wire for `text`. */
  function Frame(text: string): string {
    text + [Delim]
  }

  /** String.endsWith(delimiter). */
  predicate EndsWithDelim(s: string) {
    |s| > 0 && s[|s| - 1] == Delim
  }

  /** The frames of `ts` back to back, as they arrive on one stream. */
  function Frames(ts: seq<string>): string
    decreases |ts|
  {
    if ts == [] then "" else Frame(ts[0]) + Frames(ts[1..])
  }

  /** Texts that can be framed without ambiguity. */
  predicate Unframed(ts: seq<string>) {
    forall k :: 0 <= k < |ts| ==> Delim !in ts[k]
  }

  lemma {:induction false} FramesAppend(ts: seq<string>, us: seq<string>)
    ensures Frames(ts + us) == Frames(ts) + Frames(us)
    decreases |ts|
  {
    if ts != [] {
      assert (ts + us)[1..] == ts[1..] + us;
      FramesAppend(ts[1..], us);
    } else {
      assert ts + us == us;
    }
  }

  /** The fields of a run of frames followed by anything are the framed texts
      followed by the fields of what comes after. */
  lemma {:induction false} FieldsOfFrames(ts: seq<string>, tail: string)
    requires Unframed(ts)
    ensures Fields(Frames(ts) + tail, Delim) == ts + Fields(tail, Delim)
    decreases |ts|
  {
    if ts != [] {
      var x, y := ts[0], Frames(ts[1..]) + tail;
      assert Delim !in x;
      assert Unframed(ts[1..]) by {
        forall k | 0 <= k < |ts[1..]| ensures Delim !in ts[1..][k] {
          assert ts[1..][k] == ts[k + 1];
        }
      }
      FramesCons(ts, tail);
      FieldsOfFrame(x, y);
      FieldsOfFrames(ts[1..], tail);
      ConsAppend(ts, Fields(tail, Delim));
    } else {
      assert Frames(ts) + tail == tail;
    }
  }

  lemma FieldsOfFrame(x: string, y: string)
    requires Delim !in x
    ensures Fields(x + [Delim] + y, Delim) == [x] + Fields(y, Delim)
  {
    FieldsConcat(x, y, Delim);
    FieldsNoSep(x, Delim);
  }

  lemma FramesCons(ts: seq<string>, tail: string)
    requires ts != []
    ensures Frames(ts) + tail == ts[0] + [Delim] + (Frames(ts[1..]) + tail)
  {
    assert Frames(ts) == ts[0] + [Delim] + Frames(ts[1..]);
  }

  /** Decoding a non-empty run of frames with split gives back the framed texts,
      except that empty texts at the end are lost (split drops trailing empty
      pieces); the run always ends with the delimiter. */
  lemma SplitFrames(ts: seq<string>)
    requires ts != [] && Unframed(ts)
    ensures EndsWithDelim(Frames(ts))
    ensures Split(Frames(ts), Delim) == StripTrailingEmpty(ts)
  {
    FieldsOfFrames(ts, "");
    assert Frames(ts) + "" == Frames(ts);
    assert Frames(ts) == Frame(ts[0]) + Frames(ts[1..]);
    LastOfFrames(ts);
    var ps := ts + [""];
    assert ps[..|ps| - 1] == ts;
  }

  lemma {:induction false} LastOfFrames(ts: seq<string>)
    requires ts != []
    ensures EndsWithDelim(Frames(ts))
    decreases |ts|
  {
    if ts[1..] != [] {
      LastOfFrames(ts[1..]);
    }
  }

  /** One non-empty frame decodes to exactly its text. */
  lemma FrameRoundTrip(t: string)
    requires t != "" && Delim !in t
    ensures Split(Frame(t), Delim) == [t]
  {
    assert [t][1..] == [];
    assert Frames([t]) == Frame(t) + "" == Frame(t);
    SplitFrames([t]);
    assert StripTrailingEmpty([t]) == [t];
  }
}
