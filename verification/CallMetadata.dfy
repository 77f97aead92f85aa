/** What a caller passes along with a multiplication: quantisation operands, and a place for the status. */
module CallMetadata {
  import opened Errors
  import opened Words

  /** DLP_PARAM_DIM_TYPE. */
  datatype Dim = DimInvalid | PerTensor | PerChannel | PerToken | PerGroup

  /** DLP_TYPE. */
  datatype Stor = StorInvalid | StorS4 | StorU4 | StorF4 | StorS8 | StorU8 | StorS16 | StorU16 | StorF16 | StorBF16
                | StorS32 | StorU32 | StorF32 | StorMax

  /** `dlp_gemm_get_stor_type`: the types the library keeps; any other is recorded as invalid. */
  function Recorded(stor: Stor): Stor {
    if stor in {StorF32, StorBF16, StorF16, StorS8, StorU8, StorS32} then stor else StorInvalid
  }

  /** Bytes the library moves for one factor: two for bf16, four for every other type. */
  function ElemSize(stor: Stor): int { if stor == StorBF16 then 2 else 4 }

  /** Bits one value of the type occupies; the two bounds of the enumeration have no values. */
  function BitSize(stor: Stor): int
    requires stor != StorInvalid && stor != StorMax
  {
    match stor
    case StorS4 | StorU4 | StorF4 => 4
    case StorS8 | StorU8 => 8
    case StorS16 | StorU16 | StorF16 | StorBF16 => 16
    case _ => 32
  }

  /** Bytes of a table of exactly len values. */
  function TableBytes(stor: Stor, len: int): (bytes: int)
    requires stor != StorInvalid && stor != StorMax
    ensures stor in {StorS4, StorU4, StorF4} ==> bytes == (len + 1) / 2
    ensures stor in {StorS8, StorU8} ==> bytes == len
    ensures stor in {StorS16, StorU16, StorF16, StorBF16} ==> bytes == 2 * len
    ensures stor in {StorS32, StorU32, StorF32} ==> bytes == 4 * len
  {
    (len * BitSize(stor) + 7) / 8
  }

  /** `dlp_qparam_t`. */
  class QParam {
    var outerDim: Dim
    var len: int
    var stor: Stor
    var data: array?<Byte>

    constructor (outerDim: Dim, len: int, stor: Stor, data: array?<Byte>)
      ensures this.outerDim == outerDim && this.len == len && this.stor == stor && this.data == data
    {
      this.outerDim, this.len, this.stor, this.data := outerDim, len, stor, data;
    }
  }

  datatype QuantKind = Quantize | Dequantize | Expand

  /** `dlp_quant_op_t`. */
  class QuantOp {
    var kind: QuantKind
    var hasZeroPoint: bool
    var groupSize: int
    var scales: QParam?

    constructor (kind: QuantKind, hasZeroPoint: bool, groupSize: int, scales: QParam?)
      ensures this.kind == kind && this.hasZeroPoint == hasZeroPoint
      ensures this.groupSize == groupSize && this.scales == scales
    {
      this.kind, this.hasZeroPoint, this.groupSize, this.scales := kind, hasZeroPoint, groupSize, scales;
    }
  }

  /** `dlp_metadata_t`: the error code the entry points record, and what the quantised ones read. */
  class Metadata {
    var code: Err
    var seqLength: int
    var glu: bool
    var aQuantOp: QuantOp?
    var bQuantOp: QuantOp?
  }
}
