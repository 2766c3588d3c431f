/** The primitive operations of the intermediate representation. */
module Primitives {

  datatype Prim =
    | IntAdd | IntSub | IntMul | IntDiv | IntRem
    | IntAnd | IntOr | IntXor | IntShl | IntShr | IntShrLogical | IntComplement
    | IntLt | IntLe | IntGt | IntGe
    | FloatAdd | FloatSub | FloatMul | FloatDiv | FloatNeg | FloatLt | FloatLe | FloatGt | FloatGe
    | Eq | Compare | IntToFloat | FloatToInt | Sqrt | FloatFromBits | FloatToBits | Not
    | ArrayLength | ArrayGet | ArrayPeek | ArraySet | ArrayPut | ArrayUnique
    | ArrayWithCapacity | ArrayRepeat | ArrayPush | ArrayPushReserved
    | OtherPrim(id: nat)
}
