/** The status codes of bc_types.h that the modelled functions return. */
module Status {

  datatype Code = Ok | Invalid | IoError | NoMem | NotFound
}
