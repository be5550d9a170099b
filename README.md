# axlearn tf.data input pipeline — a Dafny model

This project models the record-level contracts of axlearn's tf.data input
pipeline (`axlearn/common/input_tf_data.py`). The contracts are taken from
its test suite, `axlearn/common/input_tf_data_test.py`. The implementation
file itself is not part of this model.

A record is a map from field names to tensors. A tensor is either dense or
ragged:

- A dense tensor has a dtype, a shape and its elements in row-major order.
- A ragged tensor has uniform outer dimensions and innermost rows of varying
  length.

A dataset is the finite sequence of records it yields.

Modules:

- `Tensors`: dtypes, elements, dense and ragged tensors, and rows along the
  leading axis.
- `Records`: records, element signatures, and the error kinds.
  - InvalidArgument stands for TensorFlow's `InvalidArgumentError`.
  - ValueError and KeyError stand for the Python exceptions.
- `Structural`: the per-record transforms `rekey`, `remove_fields`,
  `add_static_fields`, `squeeze_fields` and `extract_from_sequence`.
- `Reshape`: `trim_and_pad_tensor` and `ragged_to_tensor`.
- `Packing`: `trim_to_batch` and `pad_to_batch`, plus the greedy packer
  `pack_to_batch`.
  - The packer is specified by `Pack`.
  - It is implemented by the method `PackToBatch`, which keeps one open
    buffer per field.
- `Batching`: `batch(global_batch_size, is_training, pad_example_fn, repeat)`.
  - Specified by `EpochBatches` and `Batched`.
  - Implemented by the methods `BatchEpoch` and `Batch`, which fill an array
    buffer of `global_batch_size` slots.
- `Sources`: `concatenate_datasets` and `sample_from_datasets`.
  - The sampler's weighted random draws are a parameter: the sequence of
    source indices the seeded generator picks.

Behaviours the model takes from the tests:

- `ragged_to_tensor` passes a named field that is already dense through
  unchanged (lines 966-981).
- `sample_from_datasets` rejects a source of zero cardinality even when its
  weight is 0 (lines 94-115).
- In training, `batch` drops the short remainder of each pass and then
  repeats the passes. In evaluation the remainder is padded and there is one
  pass. A `repeat` count fixes the number of passes in both modes
  (lines 413-444).

## Model

| member | source | states |
|---|---|---|
| Structural.Rekey | axlearn/common/input_tf_data_test.py:486-551 | An empty key map returns the record unchanged. Otherwise each output key takes the field its reference names when that reference is non-empty and present. A missing or falsey reference takes the default, and is left out when there is no default. The original fields are kept only when retention is asked for. |
| Structural.RekeySignature | axlearn/common/input_tf_data_test.py:504-514 | The output element spec is determined by the input's. Records whose fields agree in name, dtype and shape are rekeyed to fields that agree in name, dtype and shape; a defaulted field takes the default's. |
| Structural.RekeyIdentityMap | axlearn/common/input_tf_data_test.py:524-534 | Mapping every field to itself gives the record back. |
| Structural.RemoveFields | axlearn/common/input_tf_data_test.py:640-684 | Exactly the named fields are dropped. Names the record lacks are ignored. Every remaining field is kept as it was. |
| Structural.RemoveAbsentFields | axlearn/common/input_tf_data_test.py:640-684 | Removing only names the record does not have changes nothing. |
| Structural.RemoveFieldsTwice | axlearn/common/input_tf_data_test.py:640-684 | Removing f and then g is removing f and g together. |
| Structural.AddStaticFields | axlearn/common/input_tf_data_test.py:762-779 | Every key of the map is added as a scalar string constant. The other fields are unchanged. |
| Structural.AddThenRemoveStatic | axlearn/common/input_tf_data_test.py:762-779 | Removing the static keys after adding them equals removing them from the original record. |
| Structural.Squeeze | axlearn/common/input_tf_data_test.py:601-638 | Succeeds exactly when the tensor is dense, every selected axis is in range and every selected axis has size 1. The result keeps the elements and dtype and has the shape with those axes removed; otherwise InvalidArgument. |
| Structural.SqueezeAllUnit | axlearn/common/input_tf_data_test.py:601-638 | Squeezing with no axis removes exactly the size-1 dimensions, and squeezing the result again changes nothing. |
| Structural.SqueezeEmptyListIsAll | axlearn/common/input_tf_data_test.py:601-638 | An empty axis list squeezes exactly like no axis, as tf.squeeze reads it. |
| Structural.SqueezeFields | axlearn/common/input_tf_data_test.py:601-638 | Each listed field is squeezed and the other fields pass through. A listed field the record lacks, or a squeeze that fails, is an error. |
| Structural.ExtractFromSequence | axlearn/common/input_tf_data_test.py:687-716 | An index, possibly negative, picks one entry of the leading axis and lowers the rank by one; an out-of-range index is an error. A slice picks the clamped Python range of entries and keeps the rank. All other fields are kept. |
| Structural.IndexAgreesWithSlice | axlearn/common/input_tf_data_test.py:702-716 | Index i and slice i:i+1 select the same entry. |
| Reshape.TrimAndPadTensor | axlearn/common/input_tf_data_test.py:984-1105 | Every innermost row becomes exactly max_len long: its own first entries, then pad_id. The outer dimensions are kept. This holds for 1-D, n-D and ragged inputs. |
| Reshape.TrimAndPadIdempotent | axlearn/common/input_tf_data_test.py:1033-1077 | Applying trim_and_pad_tensor a second time changes nothing. |
| Reshape.RaggedAndDenseAgree | axlearn/common/input_tf_data_test.py:1033-1077 | With pad id 0, a ragged tensor and its zero-padded dense form give the same result. |
| Reshape.ToDense | axlearn/common/input_tf_data_test.py:962-981 | Each innermost row is padded with the dtype's zero up to the declared bound, or up to the longest row when no bound is declared. |
| Reshape.ToDenseIsTrimAndPad | axlearn/common/input_tf_data_test.py:962-981 | With a declared bound, to_tensor equals trim_and_pad_tensor with pad id 0. |
| Reshape.ToDenseKeepsRows | axlearn/common/input_tf_data_test.py:962-981 | Without a bound, no row is cut. |
| Reshape.RaggedToTensor | axlearn/common/input_tf_data_test.py:962-981 | Named ragged fields become dense and every other field passes through. A named field the record lacks is a KeyError. |
| Packing.PadToBatch | axlearn/common/input_tf_data_test.py:782-812 | Each field gets batch_size entries: its own entries, then zeros. A scalar field, or one already longer than batch_size, is rejected. |
| Packing.PadThenTrimRestores | axlearn/common/input_tf_data_test.py:782-812 | Trimming a padded field back to its old length gives the field back. |
| Packing.TrimToBatch | axlearn/common/input_tf_data_test.py:910-959 | Each field keeps its first min(length, batch_size) entries. A scalar field is rejected. |
| Packing.TrimShortIsIdentity | axlearn/common/input_tf_data_test.py:910-959 | A record no longer than batch_size passes through trim_to_batch unchanged. |
| Packing.Pack | axlearn/common/input_tf_data_test.py:815-908 | Packing succeeds exactly when every record has the first record's signature and every field fits in batch_size; otherwise it is rejected with InvalidArgument. |
| Packing.GroupsKeepOrder | axlearn/common/input_tf_data_test.py:815-908 | The packed groups, read one after another, are the input records in their original order. |
| Packing.GroupsAreGreedy | axlearn/common/input_tf_data_test.py:815-908 | A group is closed only when the next record does not fit in it. |
| Packing.PackContent | axlearn/common/input_tf_data_test.py:815-908 | Each packed batch has the first record's fields with their dtypes and entry shapes, and batch_size entries per field. Each field holds its group's rows record after record, then zero rows. |
| Packing.PackSingle | axlearn/common/input_tf_data_test.py:815-908 | A single placeable record is packed into a batch of its own. |
| Packing.TrimThenPackAccepted | axlearn/common/input_tf_data_test.py:910-959 | Packing the output of trim_to_batch never fails when the records share a signature. |
| Packing.TrimThenPackOne | axlearn/common/input_tf_data_test.py:910-959 | A record at least batch_size long in every field becomes exactly one batch, its first batch_size entries. |
| Packing.PackToBatch | axlearn/common/input_tf_data_test.py:815-908 | The buffer-driven packer returns exactly what Pack specifies, errors included. |
| Batching.DefaultPadExample | axlearn/common/input_tf_data_test.py:366-385 | The default pad example has the element spec and is all zeros: 0, False or the empty string. |
| Batching.UnstackStack | axlearn/common/input_tf_data_test.py:366-385 | Row i of a stacked batch is the i-th record of its group. |
| Batching.GroupsContent | axlearn/common/input_tf_data_test.py:366-385 | Every group holds batch_size elements. Element i of group j is element j*batch_size+i of the pass, or the pad past the end, which occurs only in evaluation. |
| Batching.EpochCount | axlearn/common/input_tf_data_test.py:366-385 | One pass yields floor(n/batch_size) batches in training and ceil(n/batch_size) in evaluation. |
| Batching.EpochShape | axlearn/common/input_tf_data_test.py:366-385 | Every batch of a pass stacks batch_size records of the element spec. |
| Batching.EpochContent | axlearn/common/input_tf_data_test.py:366-385 | Row i of batch j is record j*batch_size+i, or the pad example past the end, which occurs only in evaluation. |
| Batching.Batched | axlearn/common/input_tf_data_test.py:365-444 | The batch size must be positive; otherwise the call is rejected with InvalidArgument. |
| Batching.BatchedStream | axlearn/common/input_tf_data_test.py:413-444 | The stream cycles through one pass. Training without a repeat count never ends, evaluation without one yields one pass, and a repeat count of p yields p passes. |
| Batching.BatchedShape | axlearn/common/input_tf_data_test.py:366-444 | Every batch of the stream stacks batch_size records of the element spec. |
| Batching.BatchEpoch | axlearn/common/input_tf_data_test.py:366-385 | The array-buffer assembler produces exactly the batches of one pass. |
| Batching.Batch | axlearn/common/input_tf_data_test.py:365-444 | The running assembler produces exactly the batches Batched specifies. |
| Sources.Concatenate | axlearn/common/input_tf_data_test.py:169-204 | No sources is a ValueError. A single source is returned unchanged. |
| Sources.ConcatenateIsFlatten | axlearn/common/input_tf_data_test.py:174-185 | The single-source shortcut agrees with playing the sources in order. |
| Sources.ConcatenateAt | axlearn/common/input_tf_data_test.py:187-204 | Record j of source i comes right after every record of the earlier sources. |
| Sources.ConcatenateAssoc | axlearn/common/input_tf_data_test.py:187-204 | Concatenating two concatenations equals concatenating all of their sources. |
| Sources.Sample | axlearn/common/input_tf_data_test.py:65-115 | Rejected with ValueError exactly when there are no sources, the weights do not match the sources, the weights sum to zero, or any source has zero cardinality. In training there is one record per draw. |
| Sources.DrawAt | axlearn/common/input_tf_data_test.py:65-115 | Output j is the next unread record of the chosen source. In training that source wraps around. |
| Sources.DrawLength | axlearn/common/input_tf_data_test.py:65-115 | Training yields a record for every draw. Evaluation stops exactly at the first draw of an exhausted source. |
| Sources.SampleOneHot | axlearn/common/input_tf_data_test.py:71-92 | With one positive weight the sample is that source. Evaluation plays its records once, in order; training plays them over and over. |

## Left out

- `unpack`, `preserve_element_spec`, `with_processor` and the TFDS readers (sharding, decoders, read configs): they deal with nested structures, tf.data plumbing and file I/O, not with record contents.
- The `prefetch_buffer_size` and `post_batch_processor` options of `batch`: prefetching changes no data, and the post-batch processor is arbitrary user code.
- The sample processor of lines 555-599: it runs an arbitrary user map over sampled data.
- Sources.Sample: the weighted pseudo-random generator is not modelled. Its draws are a parameter (`choices`), each picking a source of positive weight, so only the seeded tests' contracts are stated, not the exact order of lines 117-166. Weights are required to be non-negative.
- Packing.PackToBatch: on invalid input the real packer may already have emitted batches before it raises. The model returns only the error.
- Batching.Batched: the unbounded training stream is observed through its first `limit` batches. Only the default `pad_example_fn` (all zeros) is modelled.
- Batching.FieldRow: a record that does not conform to the element spec contributes zero rows, where `batch` would fail. The model assumes an element spec with all dimensions static.
- Packing.PadToBatch: applies to one record at a time. Over a dataset it is mapped element by element.
- Reshape.TrimAndPadTensor: a non-integer dtype or a rank-0 input is rejected as InvalidArgument. TensorFlow would report either at graph construction.
- Reshape.RaggedToTensor: a declared bound fixes only the innermost dimension. Declared outer dimensions are not modelled.
- Ragged tensors have no leading axis in the model, so Packing.TrimToBatch, Packing.Pack, Structural.ExtractFromSequence and Structural.Squeeze reject a record with a ragged field. TensorFlow slices, indexes and squeezes a ragged tensor along its outer axis. The model covers only dense fields in these operations.
- Structural.AddStaticFields: a static key that is already in the record is overwritten.
- Integer widths and string encodings: integers are unbounded and strings are sequences of characters.
