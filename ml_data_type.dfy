/** The scalar kinds of the host framework's multi-dimensional array
    (CoreML's `MLMultiArrayDataType`). `.double` is the same case as
    `.float64` and `.float` the same as `.float32`; `MLInt8` stands for
    every case the codec does not handle. */
module MLDataType {

  datatype ArrayDataType = MLFloat64 | MLFloat32 | MLFloat16 | MLInt32 | MLInt8
}
