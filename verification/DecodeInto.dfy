/** DecodeInto and DecodeBodyInto: reset the receiver, read the header, run the generated decoder. */
module DecodeIntoModel {
  import opened Basics
  import opened ReaderModel
  import opened Framing
  import opened Schema
  import opened Warm
  import opened WarmCold
  import opened Decoder

  /** Whatever an earlier decode left in the receiver, the result is that of a new one, unless it can fall back on
      capacity MakeSlice would not have granted; and after the call, failed or not, it is fit for the next. */
  method DecodeBodyInto(data: seq<byte>, fs: seq<Field>, m: Mem) returns (out: Mem, e: Option<Error>)
    ensures (out, e) == Afterwards(fs, data, m)
    ensures Fit(TStruct(fs), m, true) ==> LikeNew(fs, data, out, e) && Fit(TStruct(fs), out, true)
  {
    hide DecCells, Fit, Reset, Live, Cells, LikeNew;
    if Fit(TStruct(fs), m, true) {
      WarmIsCold(fs, data, m);
      FitClean(TStruct(fs), Afterwards(fs, data, m).0);
    }
    var clean := Reset(TStruct(fs), m);
    var r := new Reader(data);
    out, e := Unmarshal(r, fs, Live(fs, clean), Cells(fs, clean));
    if e == None {
      e := r.err;
    }
  }

  /** The result depends on the blob and the type alone. */
  method DecodeInto(data: seq<byte>, codec: Codec, fs: seq<Field>, m: Mem) returns (out: Mem, e: Option<Error>)
    ensures OpenBlob(codec, data).Ok? ==> (out, e) == Afterwards(fs, OpenBlob(codec, data).value.1, m)
    ensures OpenBlob(codec, data).Err? ==>
              e == Some(OpenBlob(codec, data).error) && Abs(TStruct(fs), out) == Schema.Zero(TStruct(fs))
    ensures Fit(TStruct(fs), m, true) ==> Fit(TStruct(fs), out, true)
    ensures Fit(TStruct(fs), m, true) && OpenBlob(codec, data).Ok? ==>
              LikeNew(fs, OpenBlob(codec, data).value.1, out, e)
  {
    hide DecCells, Fit, Reset, Live, Cells, Abs, OpenBlob, LikeNew;
    ResetHolds(TStruct(fs), m);
    var clean := Reset(TStruct(fs), m);
    var r := new Reader(data);
    var h := ReadHeader(r, codec);
    if h.Err? {
      return clean, Some(h.error);
    }
    ghost var body := OpenBlob(codec, data).value.1;
    if Fit(TStruct(fs), m, true) {
      WarmIsCold(fs, body, m);
      FitClean(TStruct(fs), Afterwards(fs, body, m).0);
    }
    out, e := Unmarshal(r, fs, Live(fs, clean), Cells(fs, clean));
    if e == None {
      e := r.err;
    }
  }
}
