/** The channel and size bookkeeping of the U-Net: which tensor shapes each
    block accepts and what it returns.  Convolutions, normalisation and
    activations are not modelled, only the shapes flowing between them
    (the batch dimension passes through every block unchanged and is
    left out). */
module UNetShapes {
  import opened Common

  /** One sample's tensor shape: channels × height × width. */
  datatype Shape = Shape(channels: nat, height: nat, width: nat)

  datatype ShapeError =
    | ChannelMismatch(expected: nat, got: nat)  // a convolution given the wrong number of channels
    | TooSmallToPool(height: nat, width: nat)   // MaxPool2d(2, 2) would give an empty output
    | SkipMismatch(up: Shape, skip: Shape)      // torch.cat along channels needs equal sizes

  /** ConvBlock(in, out): two 3×3 convolutions with padding 1 keep the size
      and turn `in` channels into `out`. */
  function ConvBlock(inCh: nat, outCh: nat, x: Shape): Result<Shape, ShapeError> {
    if x.channels != inCh then Failure(ChannelMismatch(inCh, x.channels))
    else Success(Shape(outCh, x.height, x.width))
  }

  /** MaxPool2d(kernel_size=2, stride=2): halves each side, rounding down. */
  function MaxPool(x: Shape): Result<Shape, ShapeError> {
    if x.height < 2 || x.width < 2 then Failure(TooSmallToPool(x.height, x.width))
    else Success(Shape(x.channels, x.height / 2, x.width / 2))
  }

  /** ConvTranspose2d(in, out, kernel_size=2, stride=2): doubles each side. */
  function Upsample(inCh: nat, outCh: nat, x: Shape): Result<Shape, ShapeError> {
    if x.channels != inCh then Failure(ChannelMismatch(inCh, x.channels))
    else Success(Shape(outCh, 2 * x.height, 2 * x.width))
  }

  /** torch.cat([x, skip], dim=1). */
  function Cat(x: Shape, skip: Shape): Result<Shape, ShapeError> {
    if x.height != skip.height || x.width != skip.width then Failure(SkipMismatch(x, skip))
    else Success(Shape(x.channels + skip.channels, x.height, x.width))
  }

  /** The final 1×1 convolution. */
  function Classifier(inCh: nat, numClasses: nat, x: Shape): Result<Shape, ShapeError> {
    if x.channels != inCh then Failure(ChannelMismatch(inCh, x.channels))
    else Success(Shape(numClasses, x.height, x.width))
  }

  /** EncoderBlock.forward: the block's output is kept as the skip, and
      its pooled form goes one level down. */
  function Encoder(inCh: nat, outCh: nat, x: Shape): Result<(Shape, Shape), ShapeError> {
    match ConvBlock(inCh, outCh, x)
    case Failure(e) => Failure(e)
    case Success(skip) =>
      match MaxPool(skip)
      case Failure(e) => Failure(e)
      case Success(pooled) => Success((skip, pooled))
  }

  /** DecoderBlock.forward: upsample, concatenate the skip, then a
      ConvBlock from out_channels * 2 channels. */
  function Decoder(inCh: nat, outCh: nat, x: Shape, skip: Shape): Result<Shape, ShapeError> {
    match Upsample(inCh, outCh, x)
    case Failure(e) => Failure(e)
    case Success(up) =>
      match Cat(up, skip)
      case Failure(e) => Failure(e)
      case Success(joined) => ConvBlock(outCh * 2, outCh, joined)
  }

  function Pow2(n: nat): (p: nat)
    ensures p >= 1
  {
    if n == 0 then 1 else 2 * Pow2(n - 1)
  }

  /** UNet(in_channels, num_classes, base_filters). */
  datatype UNet = UNet(inChannels: nat, numClasses: nat, baseFilters: nat)

  /** The number of levels of the encoder and of the decoder. */
  const Depth: nat := 4

  /** The filters at level i: f, 2f, 4f, 8f on the way down, 16f at the
      bottleneck (level 4), mirrored on the way up. */
  function Filters(net: UNet, level: nat): nat {
    net.baseFilters * Pow2(level)
  }

  /** What encoder i is built for: the input bands at the top, otherwise the
      filters of the level above. */
  function EncoderInput(net: UNet, level: nat): nat {
    if level == 0 then net.inChannels else Filters(net, level - 1)
  }

  /** Everything from encoder `level` down to the bottleneck and back up to
      decoder `level`: enc, the levels below (or the bottleneck under the
      last encoder), then dec with this level's skip. */
  function Level(net: UNet, level: nat, x: Shape): Result<Shape, ShapeError>
    requires level < Depth
    decreases Depth - level
  {
    match Encoder(EncoderInput(net, level), Filters(net, level), x)
    case Failure(e) => Failure(e)
    case Success((skip, pooled)) =>
      var below :=
        if level == Depth - 1 then ConvBlock(Filters(net, level), Filters(net, level + 1), pooled)
        else Level(net, level + 1, pooled);
      match below
      case Failure(e) => Failure(e)
      case Success(inner) => Decoder(Filters(net, level + 1), Filters(net, level), inner, skip)
  }

  /** UNet.forward. */
  function Forward(net: UNet, x: Shape): Result<Shape, ShapeError> {
    match Level(net, 0, x)
    case Failure(e) => Failure(e)
    case Success(y) => Classifier(net.baseFilters, net.numClasses, y)
  }

  /** A side fits the levels from `level` down when it halves exactly at
      each remaining pooling and is still at least 1 at the bottleneck. */
  predicate Fits(side: nat, level: nat)
    requires level <= Depth
    decreases Depth - level
  {
    if level == Depth then side >= 1
    else side >= 2 && side % 2 == 0 && Fits(side / 2, level + 1)
  }

  /** Fitting all four poolings means being a positive multiple of 16. */
  lemma FitsAll(side: nat)
    ensures Fits(side, 0) <==> side % 16 == 0 && side >= 16
  {
    var a, b, c := side / 2, side / 4, side / 8;
    assert a / 2 == b && b / 2 == c && c / 2 == side / 16;
    assert Fits(c, 3) <==> c >= 2 && c % 2 == 0 && c / 2 >= 1;
    assert Fits(b, 2) <==> b >= 2 && b % 2 == 0 && Fits(c, 3);
    assert Fits(a, 1) <==> a >= 2 && a % 2 == 0 && Fits(b, 2);
    assert Fits(side, 0) <==> side >= 2 && side % 2 == 0 && Fits(a, 1);
  }

  /** The levels from `level` down accept a tensor exactly when it has the
      channels encoder `level` is built for and both sides fit the
      remaining poolings; they hand back the filters of that level at the
      same size. */
  lemma {:induction false} LevelShape(net: UNet, level: nat, x: Shape)
    requires level < Depth
    ensures Level(net, level, x).Success? <==>
      x.channels == EncoderInput(net, level) && Fits(x.height, level) && Fits(x.width, level)
    ensures Level(net, level, x).Success? ==>
      Level(net, level, x).value == Shape(Filters(net, level), x.height, x.width)
    decreases Depth - level
  {
    var f := Filters(net, level);
    assert Filters(net, level + 1) == 2 * f;
    if x.channels == EncoderInput(net, level) && x.height >= 2 && x.width >= 2 {
      var skip := Shape(f, x.height, x.width);
      var pooled := Shape(f, x.height / 2, x.width / 2);
      assert Encoder(EncoderInput(net, level), f, x) == Success((skip, pooled));
      if level < Depth - 1 {
        LevelShape(net, level + 1, pooled);
        assert EncoderInput(net, level + 1) == f;
      }
    }
  }

  /** The shape check after building the model: an input with in_channels
      bands whose sides are multiples of 16 (at least 16) comes out with
      num_classes channels at the same size; any other input is refused. */
  lemma ForwardShape(net: UNet, x: Shape)
    ensures Forward(net, x).Success? <==>
      && x.channels == net.inChannels
      && x.height % 16 == 0 && x.height >= 16
      && x.width % 16 == 0 && x.width >= 16
    ensures Forward(net, x).Success? ==>
      Forward(net, x).value == Shape(net.numClasses, x.height, x.width)
  {
    LevelShape(net, 0, x);
    FitsAll(x.height);
    FitsAll(x.width);
    assert Filters(net, 0) == net.baseFilters;
  }

  /** Each decoder's ConvBlock receives exactly the upsampled channels
      plus the skip's: twice its own filters. */
  lemma DecoderChannels(net: UNet, level: nat, inner: Shape, skip: Shape)
    requires level < Depth
    requires inner.channels == Filters(net, level + 1) && skip.channels == Filters(net, level)
    requires skip.height == 2 * inner.height && skip.width == 2 * inner.width
    ensures Decoder(Filters(net, level + 1), Filters(net, level), inner, skip) ==
      Success(Shape(Filters(net, level), skip.height, skip.width))
  {
  }
}
