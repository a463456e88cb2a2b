/** Why a record accessor dies: "record is read-only", "member is read only", and "Cannot assign undef
    to a fixed string field". */
module Errors {
  datatype Error = RecordReadOnly | MemberReadOnly | UndefFixed
}
