/** The classifier object: its lifetime (construction, `close`) and `recognizeImage`,
    which chains the grey buffer, the inference engine, the label map, top-1 selection
    and the diagnostic rendering. The engine's inference is a function parameter. */
module Classifier {
  import opened Colors
  import opened TopProbability
  import GreyBuffer
  import GridIndex

  /** The inference engine. Only whether it has been closed, and how often, is modelled;
      loading the model and running it belong to the library. */
  class Interpreter {
    var closeCount: nat

    constructor ()
      ensures closeCount == 0
    {
      closeCount := 0;
    }

    method Close()
      modifies this
      ensures closeCount == old(closeCount) + 1
    {
      closeCount := closeCount + 1;
    }
  }

  /** The memory-mapped model file. The classifier's field of this type is never set:
      the constructor's parameter of the same name shadows it. */
  class MappedModel {
  }

  /** What `recognizeImage` hands back: the top prediction and the rendered input. */
  datatype Recognition = Recognition(top: Probability, bitmap: array2<Argb>)

  /** `recognizeImage` either recognises the image or, once the classifier is closed,
      fails with a null-pointer dereference of the interpreter. */
  datatype Outcome = Recognized(recognition: Recognition) | NullInterpreter

  class ImageClassifier {
    var tfLite: Interpreter?
    var tfLiteModel: MappedModel?
    const numThreads: int
    const modelImageSizeX: nat
    const modelImageSizeY: nat

    /** The interpreter created by the constructor, which this classifier owns. */
    ghost const interpreter: Interpreter

    /** The interpreter is still held and has never been closed, or it has been released
        and closed exactly once. */
    ghost predicate Valid()
      reads this, interpreter
    {
      && (tfLite == null || tfLite == interpreter)
      && interpreter.closeCount == (if tfLite == null then 1 else 0)
    }

    /** Creates the interpreter and reads the model's input size from the shape of its
        input tensor: height at index 1, width at index 2. */
    constructor (numThreads: int, inputShape: seq<nat>)
      requires |inputShape| >= 3
      ensures Valid() && tfLite == interpreter && fresh(interpreter)
      ensures tfLiteModel == null && this.numThreads == numThreads
      ensures modelImageSizeY == inputShape[1] && modelImageSizeX == inputShape[2]
    {
      this.numThreads := numThreads;
      var engine := new Interpreter();
      interpreter := engine;
      tfLite := engine;
      tfLiteModel := null;
      modelImageSizeY := inputShape[1];
      modelImageSizeX := inputShape[2];
    }

    /** `close`: closes and drops the interpreter if it is still held. Afterwards the
        interpreter has been closed exactly once, however often `close` is called; a
        second call leaves it untouched. */
    method Close()
      requires Valid()
      modifies this, interpreter
      ensures Valid()
      ensures tfLite == null && tfLiteModel == null
      ensures interpreter.closeCount == 1
      ensures old(tfLite) == null ==> unchanged(interpreter)
    {
      if tfLite != null {
        tfLite.Close();
        tfLite := null;
      }
      tfLiteModel := null;
    }

    /** `recognizeImage`, from the image `loadImage` produced (maxX by maxY cells of three
        channels): the scores the engine gives for the grey buffer are paired with the
        labels in order and the first maximum is selected; the grey buffer is rendered
        back at the model's size. On a closed classifier it fails. */
    method RecognizeImage(image: array<real>, maxX: nat, maxY: nat, run: seq<real> -> seq<real>)
      returns (outcome: Outcome)
      requires Valid()
      requires 3 * (maxX * maxY) <= image.Length
      requires maxX * maxY == modelImageSizeX * modelImageSizeY
      requires forall input :: |run(input)| == |Labels|
      ensures outcome == NullInterpreter <==> tfLite == null
      ensures outcome.Recognized? ==> fresh(outcome.recognition.bitmap)
      ensures outcome.Recognized? ==>
                var grey := GreyBuffer.GreyImage(image[..], maxX * maxY);
                && outcome.recognition.top == Top(LabelProbabilities(Labels, run(grey)))
                && outcome.recognition.bitmap.Length0 == modelImageSizeX
                && outcome.recognition.bitmap.Length1 == modelImageSizeY
                && forall x, y :: 0 <= x < modelImageSizeX && 0 <= y < modelImageSizeY ==>
                     outcome.recognition.bitmap[x, y]
                       == OpaqueGrey(GreyBuffer.ChannelAsWritten(grey[GridIndex.Cell(x, y, modelImageSizeX, modelImageSizeY)]))
    {
      var floatBuffer := GreyBuffer.ConvertTensorImageToFloatBuffer(image, maxX, maxY);
      if tfLite == null {
        return NullInterpreter;
      }
      var labeledProbability := LabelProbabilities(Labels, run(floatBuffer[..]));
      var probability := CalculateTopProbability(labeledProbability);
      var bitmap := GreyBuffer.ConvertFloatBufferToBitmap(floatBuffer, modelImageSizeX, modelImageSizeY);
      outcome := Recognized(Recognition(probability, bitmap));
    }
  }

  /** A classifier closed twice has closed its interpreter once, and recognising an image
      afterwards fails. */
  method CloseTwiceThenRecognize(classifier: ImageClassifier, image: array<real>, run: seq<real> -> seq<real>)
    returns (outcome: Outcome)
    requires classifier.Valid()
    requires image.Length == 3 * (classifier.modelImageSizeX * classifier.modelImageSizeY)
    requires forall input :: |run(input)| == |Labels|
    modifies classifier, classifier.interpreter
    ensures classifier.interpreter.closeCount == 1
    ensures outcome == NullInterpreter
  {
    classifier.Close();
    classifier.Close();
    outcome := classifier.RecognizeImage(image, classifier.modelImageSizeX, classifier.modelImageSizeY, run);
  }
}
