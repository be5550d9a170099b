/** Records flowing through the pipeline and the errors transforms raise. */
module Records {
  import opened Tensors

  /** One example: field name to tensor. */
  type Record = map<string, Tensor>

  /** A field's declared dtype and shape. */
  datatype FieldSpec = FieldSpec(dtype: DType, shape: seq<nat>)

  /** A dataset's element spec: field name to field spec. */
  type Signature = map<string, FieldSpec>

  datatype Option<T> = None | Some(value: T)

  /** The exceptions the pipeline raises: TensorFlow's InvalidArgumentError
      for shape failures, Python's ValueError for configuration errors and
      KeyError for a field that is not there. */
  datatype Error = InvalidArgument | ValueError | KeyError

  datatype Result<T> = Ok(value: T) | Err(error: Error)
}
