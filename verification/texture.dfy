/**
 * The two texture file loaders and the filetype dispatch of `Texture`.
 *
 * A file is its whitespace-separated token list.  Turning a token into an
 * integer is a parameter `num` (`None` when the token is not a number); the
 * upload to the graphics library is modelled by recording the image the
 * loader would hand to it.
 */
module Textures {
  import opened Wrappers
  import Comments
  import PaintTool

  const CustomTxt: int := 0
  const CustomPaintTool: int := 1

  /** The width and height the paint-tool images are uploaded with. */
  const PaintToolDim: int := 64

  /** A `runtime_error` with its message, or a call to `exit` with its status. */
  datatype Error = RuntimeError(msg: string) | Exit(status: int)

  /** The width, height and RGB bytes passed to the texture upload. */
  datatype Image = Image(width: int, height: int, data: seq<int>)

  /** `v & 0xFF` on a two's-complement integer. */
  function Byte(v: int): (b: int)
    ensures 0 <= b < 256
    ensures 0 <= v < 256 ==> b == v
    ensures (v - b) % 256 == 0
  {
    v % 256
  }

  predicate AllBytes(vs: seq<int>)
  {
    forall k :: 0 <= k < |vs| ==> 0 <= vs[k] < 256
  }

  // ---------------------------------------------------------------------------
  // The text format: ROWS r COLUMNS c, then r*c RGB triples

  /** Token `p`, or the empty string once the stream is exhausted. */
  function Field(toks: seq<string>, p: int): string
  {
    if 0 <= p < |toks| then toks[p] else ""
  }

  /** The integer read at token `p` (0 when it is missing or not a number). */
  function IntField(toks: seq<string>, p: int, num: string -> Option<int>): int
  {
    match num(Field(toks, p))
    case Some(v) => v
    case None => 0
  }

  const RowsMissing: string := ", missing ROWS attribute"
  const ColumnsMissing: string := ", missing COLUMNS attribute"

  function Malformed(filename: string, what: string): Error
  {
    RuntimeError("Malformed texture file: " + filename + what)
  }

  /** The `3 * n` bytes read after the header: byte k comes from token 4 + k. */
  function TextBytes(toks: seq<string>, num: string -> Option<int>, n: int): (bs: seq<int>)
    ensures |bs| == if n > 0 then 3 * n else 0
    ensures AllBytes(bs)
  {
    if n <= 0 then [] else seq(3 * n, k => Byte(IntField(toks, 4 + k, num)))
  }

  lemma TextBytesAt(toks: seq<string>, num: string -> Option<int>, n: int, k: int)
    requires 0 <= k < 3 * n
    ensures TextBytes(toks, num, n)[k] == Byte(IntField(toks, 4 + k, num))
  {
  }

  lemma TextBytesStep(toks: seq<string>, num: string -> Option<int>, i: nat)
    ensures TextBytes(toks, num, i + 1) == TextBytes(toks, num, i) +
      [Byte(IntField(toks, 4 + 3 * i, num)), Byte(IntField(toks, 5 + 3 * i, num)), Byte(IntField(toks, 6 + 3 * i, num))]
  {
  }

  /** `loadCustomTextureType` on the token list of a file. */
  function LoadText(filename: string, file: seq<string>, num: string -> Option<int>): (r: Result<Image, Error>)
    ensures r.Failure? ==> r.error == Malformed(filename, RowsMissing) || r.error == Malformed(filename, ColumnsMissing)
    ensures r.Success? ==> AllBytes(r.value.data)
  {
    var toks := Comments.Strip(file, false);
    if Field(toks, 0) != "ROWS" then Failure(Malformed(filename, RowsMissing))
    else if Field(toks, 2) != "COLUMNS" then Failure(Malformed(filename, ColumnsMissing))
    else
      var rows, columns := IntField(toks, 1, num), IntField(toks, 3, num);
      Success(Image(columns, rows, TextBytes(toks, num, rows * columns)))
  }

  /**
   * The loader fails exactly when a header keyword is missing, and then
   * names the first one missing; otherwise the image has `columns` by
   * `rows` pixels, three bytes each.
   */
  lemma LoadTextOutcome(filename: string, file: seq<string>, num: string -> Option<int>)
    ensures var toks, r := Comments.Strip(file, false), LoadText(filename, file, num);
      && (r.Failure? <==> Field(toks, 0) != "ROWS" || Field(toks, 2) != "COLUMNS")
      && (Field(toks, 0) != "ROWS" ==> r.error == Malformed(filename, RowsMissing))
      && (Field(toks, 0) == "ROWS" && Field(toks, 2) != "COLUMNS" ==> r.error == Malformed(filename, ColumnsMissing))
      && (r.Success? ==>
            r.value.width == IntField(toks, 3, num) && r.value.height == IntField(toks, 1, num) &&
            |r.value.data| == (if r.value.width * r.value.height > 0 then 3 * r.value.width * r.value.height else 0) &&
            AllBytes(r.value.data))
  {
    var toks := Comments.Strip(file, false);
    var rows, columns := IntField(toks, 1, num), IntField(toks, 3, num);
    assert rows * columns == columns * rows;
  }

  lemma PositiveProduct(a: int, b: int)
    requires a > 0 && b > 0
    ensures a * b > 0
  {
  }

  /** Writes a number as a token. */
  type Show = int -> string

  /** `show` writes every byte so that `num` reads it back, and never as a comment opener. */
  ghost predicate Readable(show: Show, num: string -> Option<int>)
  {
    forall v :: 0 <= v < 256 ==> num(show(v)) == Some(v) && show(v) != Comments.Open
  }

  function ShowAll(show: Show, vs: seq<int>): (ts: seq<string>)
    ensures |ts| == |vs| && forall k :: 0 <= k < |vs| ==> ts[k] == show(vs[k])
  {
    if vs == [] then [] else [show(vs[0])] + ShowAll(show, vs[1..])
  }

  /**
   * A text texture file written from a header and a byte image loads back
   * as that image.
   */
  lemma TextRoundTrip(filename: string, rows: int, columns: int, bytes: seq<int>, show: Show, num: string -> Option<int>)
    requires rows > 0 && columns > 0 && |bytes| == 3 * (rows * columns) && AllBytes(bytes)
    requires Readable(show, num)
    requires num(show(rows)) == Some(rows) && num(show(columns)) == Some(columns)
    requires show(rows) != Comments.Open && show(columns) != Comments.Open
    ensures LoadText(filename, ["ROWS", show(rows), "COLUMNS", show(columns)] + ShowAll(show, bytes), num)
         == Success(Image(columns, rows, bytes))
  {
    var file := ["ROWS", show(rows), "COLUMNS", show(columns)] + ShowAll(show, bytes);
    PlainFile(file, bytes, show, num);
    assert IntField(file, 1, num) == rows && IntField(file, 3, num) == columns;
    var n := rows * columns;
    assert n > 0 by { PositiveProduct(rows, columns); }
    ShownBytes(file, bytes, show, num, n);
  }

  lemma PlainFile(file: seq<string>, bytes: seq<int>, show: Show, num: string -> Option<int>)
    requires |file| == 4 + |bytes| && AllBytes(bytes) && Readable(show, num)
    requires forall k :: 0 <= k < 4 ==> file[k] != Comments.Open
    requires forall k :: 0 <= k < |bytes| ==> file[4 + k] == show(bytes[k])
    ensures Comments.Strip(file, false) == file
  {
    assert Comments.Open !in file by {
      forall k | 0 <= k < |file|
        ensures file[k] != Comments.Open
      {
        if k >= 4 {
          assert file[4 + (k - 4)] == show(bytes[k - 4]);
        }
      }
    }
    Comments.KeepsPlainTokens(file);
  }

  lemma ShownBytes(file: seq<string>, bytes: seq<int>, show: Show, num: string -> Option<int>, n: int)
    requires |file| == 4 + |bytes| && |bytes| == 3 * n && AllBytes(bytes) && Readable(show, num)
    requires forall k :: 0 <= k < |bytes| ==> file[4 + k] == show(bytes[k])
    ensures TextBytes(file, num, n) == bytes
  {
    var data := TextBytes(file, num, n);
    forall k | 0 <= k < |bytes|
      ensures data[k] == bytes[k]
    {
      var v := bytes[k];
      assert Field(file, 4 + k) == show(v);
      assert IntField(file, 4 + k, num) == v;
      TextBytesAt(file, num, n, k);
    }
  }

  // ---------------------------------------------------------------------------
  // The paint-tool format: a header token, then RGB triples until the numbers end

  /** The integers the stream yields before the first token that is not one. */
  function IntPrefix(toks: seq<string>, num: string -> Option<int>): (vs: seq<int>)
    ensures |vs| <= |toks|
    ensures forall k :: 0 <= k < |vs| ==> num(toks[k]) == Some(vs[k])
    ensures |vs| < |toks| ==> num(toks[|vs|]).None?
  {
    if toks == [] || num(toks[0]).None? then []
    else [num(toks[0]).value] + IntPrefix(toks[1..], num)
  }

  /**
   * The bytes of the paint-tool loop: one triple per `r` read.  When the
   * numbers run out inside a triple, `g` and `b` keep the values of the
   * previous triple (`pg`, `pb`).
   */
  function PaintBytes(vs: seq<int>, pg: int, pb: int): (bs: seq<int>)
    decreases |vs|
  {
    if vs == [] then []
    else
      var g := if |vs| > 1 then vs[1] else pg;
      var b := if |vs| > 2 then vs[2] else pb;
      [Byte(vs[0]), Byte(g), Byte(b)] + PaintBytes(vs[if |vs| > 3 then 3 else |vs|..], g, b)
  }

  /** One turn of the loop from position `p`, with `g` and `b` left from the last one. */
  lemma PaintBytesStep(vs: seq<int>, p: nat, g: int, b: int)
    requires p < |vs|
    ensures var g', b' := (if p + 1 < |vs| then vs[p + 1] else g), (if p + 2 < |vs| then vs[p + 2] else b);
      PaintBytes(vs[p..], g, b) ==
      [Byte(vs[p]), Byte(g'), Byte(b')] + PaintBytes(vs[if p + 3 < |vs| then p + 3 else |vs|..], g', b')
  {
    var t := vs[p..];
    assert t[if |t| > 3 then 3 else |t|..] == vs[if p + 3 < |vs| then p + 3 else |vs|..];
  }

  /** One triple per started group of three numbers. */
  lemma {:induction false} PaintBytesLength(vs: seq<int>, pg: int, pb: int)
    ensures |PaintBytes(vs, pg, pb)| == 3 * ((|vs| + 2) / 3)
    decreases |vs|
  {
    if vs != [] {
      var g := if |vs| > 1 then vs[1] else pg;
      var b := if |vs| > 2 then vs[2] else pb;
      var rest := vs[if |vs| > 3 then 3 else |vs|..];
      PaintBytesLength(rest, g, b);
      if |vs| <= 3 {
        assert rest == [];
      } else {
        assert |rest| == |vs| - 3;
      }
    }
  }

  /** Every value is masked to a byte, and every number read lands at its own position. */
  lemma {:induction false} PaintBytesValues(vs: seq<int>, pg: int, pb: int)
    ensures AllBytes(PaintBytes(vs, pg, pb)) && |vs| <= |PaintBytes(vs, pg, pb)|
    ensures forall k :: 0 <= k < |vs| ==> PaintBytes(vs, pg, pb)[k] == Byte(vs[k])
    decreases |vs|
  {
    if vs != [] {
      var g := if |vs| > 1 then vs[1] else pg;
      var b := if |vs| > 2 then vs[2] else pb;
      var rest := vs[if |vs| > 3 then 3 else |vs|..];
      PaintBytesValues(rest, g, b);
      var bs := PaintBytes(vs, pg, pb);
      var tail := PaintBytes(rest, g, b);
      assert bs == [Byte(vs[0]), Byte(g), Byte(b)] + tail;
      assert |rest| == |vs| - 3 || rest == [];
      forall k | 0 <= k < |vs|
        ensures bs[k] == Byte(vs[k])
      {
        if k >= 3 {
          assert vs[k] == rest[k - 3];
          assert bs[k] == tail[k - 3];
        }
      }
    }
  }

  /** One triple per started group of three numbers; every number is masked in place. */
  lemma PaintBytesShape(vs: seq<int>, pg: int, pb: int)
    ensures |PaintBytes(vs, pg, pb)| == 3 * ((|vs| + 2) / 3)
    ensures AllBytes(PaintBytes(vs, pg, pb))
    ensures forall k :: 0 <= k < |vs| ==> PaintBytes(vs, pg, pb)[k] == Byte(vs[k])
  {
    PaintBytesLength(vs, pg, pb);
    PaintBytesValues(vs, pg, pb);
  }

  /** The numbers of a paint-tool save file load back unchanged. */
  lemma PaintToolSaveLoads(idx: seq<int>, pg: int, pb: int)
    requires PaintTool.Indices(idx)
    ensures PaintBytes(PaintTool.Encode(idx), pg, pb) == PaintTool.Encode(idx)
  {
    var vs := PaintTool.Encode(idx);
    forall k | 0 <= k < |vs|
      ensures 0 <= vs[k] < 256
    {
      PaintTool.EncodeAt(idx, k / 3);
      assert vs[k] == vs[3 * (k / 3) .. 3 * (k / 3) + 3][k % 3];
    }
    PaintBytesShape(vs, pg, pb);
  }

  /** `loadCustomPaintToolType` on the token list of a file. */
  function LoadPaintTool(file: seq<string>, num: string -> Option<int>): (r: Result<Image, Error>)
    ensures r.Failure? <==> file == []
    ensures r.Failure? ==> r.error == Exit(1)
    ensures r.Success? ==>
      && r.value.width == PaintToolDim && r.value.height == PaintToolDim && AllBytes(r.value.data)
      && |r.value.data| == 3 * ((|IntPrefix(file[1..], num)| + 2) / 3)
      && forall k :: 0 <= k < |IntPrefix(file[1..], num)| ==> r.value.data[k] == Byte(IntPrefix(file[1..], num)[k])
  {
    if file == [] then Failure(Exit(1))
    else
      PaintBytesShape(IntPrefix(file[1..], num), 0, 0);
      Success(Image(PaintToolDim, PaintToolDim, PaintBytes(IntPrefix(file[1..], num), 0, 0)))
  }

  // ---------------------------------------------------------------------------
  // The texture object

  class Texture {
    var width: int
    var height: int
    /** What the loader hands to the texture upload. */
    var upload: Image

    /** The fields of a texture before a loader has run. */
    constructor Blank()
      ensures width == 0 && height == 0 && upload == Image(0, 0, [])
    {
      width, height, upload := 0, 0, Image(0, 0, []);
    }

    /** `Texture(texture_data, height, width, ...)`: an image given directly. */
    constructor FromData(data: seq<int>, h: int, w: int)
      ensures width == w && height == h && upload == Image(w, h, data)
    {
      width, height, upload := w, h, Image(w, h, data);
    }

    /** `loadCustomTextureType`: strip comments, check the header, read the triples. */
    method LoadCustomTextureType(filename: string, file: seq<string>, num: string -> Option<int>)
      returns (status: Result<(), Error>)
      modifies this
      ensures LoadText(filename, file, num).Failure? ==>
        status == Failure(LoadText(filename, file, num).error) && width == old(width) && height == old(height) && upload == old(upload)
      ensures LoadText(filename, file, num).Success? ==>
        status.Success? && upload == LoadText(filename, file, num).value && width == upload.width && height == upload.height
    {
      var toks := Comments.StripComments(file);
      if Field(toks, 0) != "ROWS" {
        return Failure(Malformed(filename, RowsMissing));
      }
      var rows := IntField(toks, 1, num);
      if Field(toks, 2) != "COLUMNS" {
        return Failure(Malformed(filename, ColumnsMissing));
      }
      var columns := IntField(toks, 3, num);
      width, height := columns, rows;
      var elements := rows * columns;
      var data: seq<int> := [];
      var i := 0;
      while i < elements
        invariant 0 <= i && (i <= elements || i == 0)
        invariant data == TextBytes(toks, num, i)
        invariant width == columns && height == rows
      {
        TextBytesStep(toks, num, i);
        var p := 4 + 3 * i;
        var r, g, b := IntField(toks, p, num), IntField(toks, p + 1, num), IntField(toks, p + 2, num);
        data := data + [Byte(r), Byte(g), Byte(b)];
        i := i + 1;
      }
      assert data == TextBytes(toks, num, elements) by {
        if elements > 0 {
          assert i == elements;
        }
      }
      upload := Image(width, height, data);
      return Success(());
    }

    /** `loadCustomPaintToolType`: exit without a first token, else read triples while numbers last. */
    method LoadCustomPaintToolType(file: seq<string>, num: string -> Option<int>) returns (status: Result<(), Error>)
      modifies this
      ensures file == [] ==> status == Failure(Exit(1)) && upload == old(upload)
      ensures file != [] ==> status.Success? && upload == LoadPaintTool(file, num).value
      ensures width == old(width) && height == old(height)
    {
      if file == [] {
        return Failure(Exit(1));
      }
      var data := ReadPaintData(IntPrefix(file[1..], num));
      upload := Image(PaintToolDim, PaintToolDim, data);
      return Success(());
    }
  }

  /** The loader's loop: one triple per turn while numbers last, each masked to a byte. */
  method ReadPaintData(vs: seq<int>) returns (data: seq<int>)
    ensures data == PaintBytes(vs, 0, 0)
  {
    data := [];
    var r, g, b := 0, 0, 0;
    var p := 0;
    assert vs[0..] == vs;
    while p < |vs|
      invariant 0 <= p <= |vs|
      invariant data + PaintBytes(vs[p..], g, b) == PaintBytes(vs, 0, 0)
    {
      PaintBytesStep(vs, p, g, b);
      r, g, b, p := ReadTriple(vs, p, g, b);
      data := data + [Byte(r), Byte(g), Byte(b)];
    }
    assert vs[p..] == [];
  }

  /** `is >> r` then `is >> g >> b`: a read past the last number leaves its variable as it was. */
  method ReadTriple(vs: seq<int>, p: nat, g: int, b: int) returns (r': int, g': int, b': int, p': nat)
    requires p < |vs|
    ensures r' == vs[p]
    ensures g' == (if p + 1 < |vs| then vs[p + 1] else g)
    ensures b' == (if p + 2 < |vs| then vs[p + 2] else b)
    ensures p' == (if p + 3 < |vs| then p + 3 else |vs|)
  {
    r', g', b' := vs[p], g, b;
    p' := p + 1;
    if p' < |vs| {
      g' := vs[p'];
      p' := p' + 1;
      if p' < |vs| {
        b' := vs[p'];
        p' := p' + 1;
      }
    }
  }

  /** The `Texture(filename, filetype, ...)` constructor's dispatch on the filetype. */
  method Open(filename: string, filetype: int, file: seq<string>, num: string -> Option<int>)
    returns (r: Result<Texture, Error>)
    ensures filetype != CustomTxt && filetype != CustomPaintTool ==>
      r == Failure(RuntimeError("Texture : Unsupported filetype"))
    ensures filetype == CustomTxt ==>
      (r.Success? <==> LoadText(filename, file, num).Success?) &&
      (r.Failure? ==> r.error == LoadText(filename, file, num).error) &&
      (r.Success? ==> fresh(r.value) && r.value.upload == LoadText(filename, file, num).value)
    ensures filetype == CustomPaintTool ==>
      (r.Success? <==> file != []) &&
      (r.Failure? ==> r.error == Exit(1)) &&
      (r.Success? ==> fresh(r.value) && r.value.upload == LoadPaintTool(file, num).value)
  {
    if filetype == CustomTxt {
      var t := new Texture.Blank();
      var loaded := t.LoadCustomTextureType(filename, file, num);
      if loaded.Failure? {
        return Failure(loaded.error);
      }
      return Success(t);
    } else if filetype == CustomPaintTool {
      var t := new Texture.Blank();
      var loaded := t.LoadCustomPaintToolType(file, num);
      if loaded.Failure? {
        return Failure(loaded.error);
      }
      return Success(t);
    }
    return Failure(RuntimeError("Texture : Unsupported filetype"));
  }
}
