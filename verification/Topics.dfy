/** The event signatures of src/events/normalize.cpp: the 32-byte topic0 of each event. */
module Topics {
  import opened Hex

  const TOPIC_TRANSFER: Word := [
    0xdd, 0xf2, 0x52, 0xad, 0x1b, 0xe2, 0xc8, 0x9b, 0x69, 0xc2, 0xb0, 0x68, 0xfc, 0x37, 0x8d, 0xaa,
    0x95, 0x2b, 0xa7, 0xf1, 0x63, 0xc4, 0xa1, 0x16, 0x28, 0xf5, 0x5a, 0x4d, 0xf5, 0x23, 0xb3, 0xef]

  const TOPIC_SWAP_V2: Word := [
    0xd7, 0x8a, 0xd9, 0x5f, 0xa4, 0x6c, 0x99, 0x4b, 0x65, 0x51, 0xd0, 0xda, 0x85, 0xfc, 0x27, 0x5f,
    0xe6, 0x13, 0xce, 0x37, 0x65, 0x7f, 0xb8, 0xd5, 0xe3, 0xd1, 0x30, 0x84, 0x01, 0x59, 0xd8, 0x22]

  const TOPIC_SWAP_V3: Word := [
    0xc4, 0x20, 0x79, 0xf9, 0x4a, 0x63, 0x50, 0xd7, 0xe5, 0x73, 0x5f, 0x2a, 0x15, 0x3e, 0x36, 0x8f,
    0xc9, 0x51, 0x53, 0xe1, 0x72, 0xee, 0x90, 0x82, 0x40, 0x36, 0x51, 0x1a, 0x8f, 0xb4, 0x17, 0xb3]

  const TOPIC_MINT: Word := [
    0x4c, 0x20, 0x9b, 0x5f, 0xc8, 0xad, 0x50, 0x75, 0x8f, 0x13, 0xe2, 0xe1, 0x08, 0x8b, 0xa5, 0x6a,
    0x56, 0x0d, 0xff, 0x69, 0x4a, 0xf1, 0x63, 0x23, 0x4d, 0x7f, 0x6c, 0x31, 0x03, 0x4c, 0x56, 0x8d]

  const TOPIC_BURN: Word := [
    0xdc, 0xcd, 0x28, 0xe3, 0x60, 0x55, 0xd5, 0x06, 0x99, 0x2d, 0x9d, 0x40, 0xa0, 0x8e, 0x08, 0xd6,
    0x69, 0x1c, 0x95, 0x69, 0x70, 0x72, 0x48, 0x06, 0x6f, 0x2c, 0x2f, 0x82, 0x99, 0x83, 0x96, 0xe9]

  const TOPIC_OWNERSHIP_TRANSFERRED: Word := [
    0x8b, 0xe0, 0x07, 0x9c, 0x53, 0x16, 0x59, 0x14, 0x13, 0x44, 0xcd, 0x1f, 0xd0, 0xa4, 0xf2, 0x84,
    0x19, 0x49, 0x7f, 0x97, 0x22, 0xa3, 0xda, 0xaf, 0xe3, 0xb4, 0x18, 0x6f, 0x6b, 0x64, 0x57, 0xe0]

  const TOPIC_PAUSED: Word := [
    0x62, 0xe7, 0x8c, 0xea, 0x01, 0xbe, 0xe3, 0x20, 0xcd, 0x4e, 0x42, 0x02, 0x70, 0xb5, 0xea, 0x74,
    0x00, 0x0d, 0x11, 0xb0, 0xc9, 0xf7, 0x47, 0x54, 0xeb, 0xdb, 0xfc, 0x54, 0x4b, 0x05, 0xa2, 0x58]

  const TOPIC_UNPAUSED: Word := [
    0x5d, 0xb9, 0xee, 0x0a, 0x49, 0x5b, 0xf2, 0xe6, 0xff, 0x9c, 0x91, 0xa7, 0x83, 0x4c, 0x1b, 0xa4,
    0xfd, 0xd2, 0x44, 0xa5, 0xe8, 0xaa, 0x4e, 0x53, 0x7b, 0xd3, 0x8a, 0xea, 0xe4, 0xb0, 0x73, 0xaa]

  const TOPIC_ROLE_GRANTED: Word := [
    0x2f, 0x87, 0x88, 0x11, 0x7e, 0x7e, 0xff, 0x1d, 0x82, 0xe9, 0x26, 0xec, 0x79, 0x49, 0x01, 0xd1,
    0x7c, 0x78, 0x02, 0x4a, 0x50, 0x27, 0x09, 0x40, 0x30, 0x45, 0x40, 0xa7, 0x33, 0x65, 0x6f, 0x0d]

  const TOPIC_ROLE_REVOKED: Word := [
    0xf6, 0x39, 0x1f, 0x5c, 0x32, 0xd9, 0xc6, 0x9d, 0x2a, 0x47, 0xea, 0x67, 0x0b, 0x44, 0x29, 0x74,
    0xb5, 0x39, 0x35, 0xd1, 0xed, 0xc7, 0xfd, 0x64, 0xeb, 0x21, 0xe0, 0x47, 0xa8, 0x39, 0x17, 0x1b]

  const TOPIC_UPGRADED: Word := [
    0xbc, 0x7c, 0xd7, 0x5a, 0x20, 0xee, 0x27, 0xfd, 0x9a, 0xde, 0xba, 0xb3, 0x20, 0x41, 0xf7, 0x55,
    0x21, 0x4d, 0xbc, 0x6b, 0xff, 0xa9, 0x0c, 0xc0, 0x22, 0x5b, 0x39, 0xda, 0x2e, 0x5c, 0x2d, 0x3b]

  const TOPIC_APPROVAL: Word := [
    0x8c, 0x5b, 0xe1, 0xe5, 0xeb, 0xec, 0x7d, 0x5b, 0xd1, 0x4f, 0x71, 0x42, 0x7d, 0x1e, 0x84, 0xf3,
    0xdd, 0x03, 0x14, 0xc0, 0xf7, 0xb2, 0x29, 0x1e, 0x5b, 0x20, 0x0a, 0xc8, 0xc7, 0xc3, 0xb9, 0x25]

  const TOPIC_ORACLE_ANSWER_UPDATED: Word := [
    0x05, 0x59, 0x88, 0x4f, 0xd3, 0xa4, 0x60, 0xdb, 0x30, 0x73, 0xb7, 0xfc, 0x89, 0x6c, 0xc7, 0x79,
    0x86, 0xf1, 0x6e, 0x37, 0x82, 0x10, 0xde, 0xd4, 0x31, 0x86, 0x17, 0x5b, 0xf6, 0x46, 0xfc, 0x5f]
}
