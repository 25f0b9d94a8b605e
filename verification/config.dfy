/**
 Start-up validation of the detector's configuration. Every failing check adds one
 message, in the order model path, confidence threshold, image size; the service
 refuses to start when the list is non-empty. Whether the model file exists is a
 file-system fact supplied by the caller.
 */
module ConfigCheck {
  import opened Wrappers

  /** A configured floating-point value: a finite number, an infinity, NaN, or a
      value that cannot be compared with numbers at all. The last stands for a
      non-numeric entry in the settings table; parsing the environment never
      yields one. */
  datatype FloatValue = Finite(v: real) | Infinite(positive: bool) | NaN | NotNumeric

  /** The settings checked at start-up. `imageSize` is `None` when the table holds a
      value that is not an integer, which parsing the environment never yields. */
  datatype Config = Config(modelPath: string, confidenceThreshold: FloatValue, imageSize: Option<int>)

  datatype ConfigError =
    | ModelPathRequired
    | ModelFileNotFound(path: string)
    | ThresholdOutOfRange
    | ThresholdNotNumber
    | ImageSizeNotPositive
    | ImageSizeNotInteger

  /** The logged text of each error. */
  function Message(e: ConfigError): string {
    match e
    case ModelPathRequired => "MODEL_PATH is required"
    case ModelFileNotFound(p) => "Model file not found: " + p
    case ThresholdOutOfRange => "CONFIDENCE_THRESHOLD must be between 0 and 1"
    case ThresholdNotNumber => "CONFIDENCE_THRESHOLD must be a valid number"
    case ImageSizeNotPositive => "IMAGE_SIZE must be a positive integer"
    case ImageSizeNotInteger => "IMAGE_SIZE must be a valid integer"
  }

  /** Which setting an error is about, in checking order. */
  function Field(e: ConfigError): nat {
    match e
    case ModelPathRequired => 0
    case ModelFileNotFound(_) => 0
    case ThresholdOutOfRange => 1
    case ThresholdNotNumber => 1
    case ImageSizeNotPositive => 2
    case ImageSizeNotInteger => 2
  }

  /** The guard `x < 0 or x > 1` under IEEE comparison: every comparison with NaN is false. */
  predicate OutsideUnitAsWritten(x: FloatValue)
    requires !x.NotNumeric?
  {
    match x
    case Finite(v) => v < 0.0 || v > 1.0
    case Infinite(_) => true
    case NaN => false
  }

  /** The intended acceptance range of the threshold: a number in [0, 1]. */
  predicate InUnitInterval(x: FloatValue) {
    x.Finite? && 0.0 <= x.v <= 1.0
  }

  predicate ModelOk(cfg: Config, modelExists: bool) {
    cfg.modelPath != "" && modelExists
  }

  predicate ImageSizeOk(cfg: Config) {
    cfg.imageSize.Some? && cfg.imageSize.value > 0
  }

  /** The configurations that pass validation as the source writes it. */
  predicate AcceptedAsWritten(cfg: Config, modelExists: bool) {
    && ModelOk(cfg, modelExists)
    && !cfg.confidenceThreshold.NotNumeric? && !OutsideUnitAsWritten(cfg.confidenceThreshold)
    && ImageSizeOk(cfg)
  }

  /** The configurations the validation means to accept. */
  predicate Valid(cfg: Config, modelExists: bool) {
    ModelOk(cfg, modelExists) && InUnitInterval(cfg.confidenceThreshold) && ImageSizeOk(cfg)
  }

  function ModelErrors(cfg: Config, modelExists: bool): (errs: seq<ConfigError>)
    ensures |errs| <= 1 && (errs == [] <==> ModelOk(cfg, modelExists))
    ensures forall e :: e in errs ==> Field(e) == 0
    ensures ModelPathRequired in errs <==> cfg.modelPath == ""
    ensures ModelFileNotFound(cfg.modelPath) in errs <==> cfg.modelPath != "" && !modelExists
  {
    if cfg.modelPath == "" then [ModelPathRequired]
    else if !modelExists then [ModelFileNotFound(cfg.modelPath)]
    else []
  }

  function ImageSizeErrors(cfg: Config): (errs: seq<ConfigError>)
    ensures |errs| <= 1 && (errs == [] <==> ImageSizeOk(cfg))
    ensures forall e :: e in errs ==> Field(e) == 2
    ensures ImageSizeNotInteger in errs <==> cfg.imageSize.None?
    ensures ImageSizeNotPositive in errs <==> cfg.imageSize.Some? && cfg.imageSize.value <= 0
  {
    match cfg.imageSize
    case None => [ImageSizeNotInteger]
    case Some(n) => if n <= 0 then [ImageSizeNotPositive] else []
  }

  /** The threshold check with the intended range test. */
  function ThresholdErrors(x: FloatValue): (errs: seq<ConfigError>)
    ensures |errs| <= 1 && (errs == [] <==> InUnitInterval(x))
    ensures forall e :: e in errs ==> Field(e) == 1
    ensures ThresholdNotNumber in errs <==> x.NotNumeric?
    ensures ThresholdOutOfRange in errs <==> !x.NotNumeric? && !InUnitInterval(x)
  {
    if x.NotNumeric? then [ThresholdNotNumber]
    else if !InUnitInterval(x) then [ThresholdOutOfRange]
    else []
  }

  /** The threshold check as written, with the IEEE range guard. */
  function ThresholdErrorsAsWritten(x: FloatValue): (errs: seq<ConfigError>)
    ensures |errs| <= 1 && (errs == [] <==> !x.NotNumeric? && !OutsideUnitAsWritten(x))
    ensures forall e :: e in errs ==> Field(e) == 1
  {
    if x.NotNumeric? then [ThresholdNotNumber]
    else if OutsideUnitAsWritten(x) then [ThresholdOutOfRange]
    else []
  }

  /** Three checks of at most one error each, on fields 0, 1 and 2, in that order. */
  lemma ConcatOrdered(a: seq<ConfigError>, b: seq<ConfigError>, c: seq<ConfigError>)
    requires |a| <= 1 && |b| <= 1 && |c| <= 1
    requires forall e :: e in a ==> Field(e) == 0
    requires forall e :: e in b ==> Field(e) == 1
    requires forall e :: e in c ==> Field(e) == 2
    ensures var errs := a + b + c;
      forall i, j :: 0 <= i < j < |errs| ==> Field(errs[i]) < Field(errs[j])
  {
    var errs := a + b + c;
    forall i, j | 0 <= i < j < |errs|
      ensures Field(errs[i]) < Field(errs[j])
    {
      assert errs[i] in a || errs[i] in b;
      assert errs[j] in b || errs[j] in c;
    }
  }

  /** Validation as written: a NaN threshold slips through the range guard. */
  function ValidateConfigAsWritten(cfg: Config, modelExists: bool): (errs: seq<ConfigError>)
    ensures errs == [] <==> AcceptedAsWritten(cfg, modelExists)
    ensures |errs| <= 3
    ensures forall i, j :: 0 <= i < j < |errs| ==> Field(errs[i]) < Field(errs[j])
  {
    var m, t, i := ModelErrors(cfg, modelExists), ThresholdErrorsAsWritten(cfg.confidenceThreshold), ImageSizeErrors(cfg);
    ConcatOrdered(m, t, i);
    assert forall e :: e in m + t + i <==> e in m || e in t || e in i;
    m + t + i
  }

  /** Validation with the range check the messages describe: any numeric threshold
      outside [0, 1], NaN included, is reported as out of range. */
  function ValidateConfig(cfg: Config, modelExists: bool): (errs: seq<ConfigError>)
    ensures errs == [] <==> Valid(cfg, modelExists)
    ensures |errs| <= 3
    ensures forall i, j :: 0 <= i < j < |errs| ==> Field(errs[i]) < Field(errs[j])
  {
    var m, t, i := ModelErrors(cfg, modelExists), ThresholdErrors(cfg.confidenceThreshold), ImageSizeErrors(cfg);
    ConcatOrdered(m, t, i);
    m + t + i
  }

  /** Each failed check is reported by its own message, and only then. */
  lemma ValidateConfigReportsEachFailure(cfg: Config, modelExists: bool)
    ensures var errs := ValidateConfig(cfg, modelExists);
      && (ModelPathRequired in errs <==> cfg.modelPath == "")
      && (ModelFileNotFound(cfg.modelPath) in errs <==> cfg.modelPath != "" && !modelExists)
      && (ThresholdNotNumber in errs <==> cfg.confidenceThreshold.NotNumeric?)
      && (ThresholdOutOfRange in errs <==>
            !cfg.confidenceThreshold.NotNumeric? && !InUnitInterval(cfg.confidenceThreshold))
      && (ImageSizeNotInteger in errs <==> cfg.imageSize.None?)
      && (ImageSizeNotPositive in errs <==> cfg.imageSize.Some? && cfg.imageSize.value <= 0)
  {
    var m, t, i := ModelErrors(cfg, modelExists), ThresholdErrors(cfg.confidenceThreshold), ImageSizeErrors(cfg);
    assert forall e :: e in m + t + i <==> e in m || e in t || e in i;
  }

  /** The two validations differ on exactly one kind of input: a NaN threshold. */
  lemma ValidationsDifferOnlyOnNaN(cfg: Config, modelExists: bool)
    ensures ValidateConfigAsWritten(cfg, modelExists) != ValidateConfig(cfg, modelExists)
      <==> cfg.confidenceThreshold.NaN?
  {
    var a := ValidateConfigAsWritten(cfg, modelExists);
    var b := ValidateConfig(cfg, modelExists);
    var m := ModelErrors(cfg, modelExists);
    if cfg.confidenceThreshold.NaN? {
      assert b[|m|] == ThresholdOutOfRange;
      assert |a| < |b|;
    }
  }

  /** Settings read from the environment are always a float and an integer (a value
      that does not parse stops the program before validation), so the two "valid
      number" messages are never produced for them. */
  lemma ParsedSettingsNeverNonNumeric(cfg: Config, modelExists: bool)
    requires !cfg.confidenceThreshold.NotNumeric? && cfg.imageSize.Some?
    ensures ThresholdNotNumber !in ValidateConfigAsWritten(cfg, modelExists)
    ensures ImageSizeNotInteger !in ValidateConfigAsWritten(cfg, modelExists)
    ensures ThresholdNotNumber !in ValidateConfig(cfg, modelExists)
    ensures ImageSizeNotInteger !in ValidateConfig(cfg, modelExists)
  {
    var m := ModelErrors(cfg, modelExists);
    var i := ImageSizeErrors(cfg);
    var t, t' := ThresholdErrorsAsWritten(cfg.confidenceThreshold), ThresholdErrors(cfg.confidenceThreshold);
    assert forall e :: e in m + t + i <==> e in m || e in t || e in i;
    assert forall e :: e in m + t' + i <==> e in m || e in t' || e in i;
  }

  /** A concrete configuration the written guard accepts although its threshold is NaN. */
  lemma NaNThresholdAcceptedAsWritten()
    ensures ValidateConfigAsWritten(Config("best.pt", NaN, Some(640)), true) == []
    ensures ValidateConfig(Config("best.pt", NaN, Some(640)), true) == [ThresholdOutOfRange]
  {
  }
}
