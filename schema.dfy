/**
 * The column types both the client schema and the server's enum define,
 * and the Python types a data frame cell can have.
 */
module Schema {

  /** `ColumnType`: BOOL, FLOAT, INT, STR and JSON. */
  datatype ColumnType = BoolType | FloatType | IntType | StrType | JsonType

  /** The Python types `COLUMN_TYPE_TO_PY_TYPE` maps to. */
  datatype PyType = PyBoolType | PyFloatType | PyIntType | PyStrType
}
