/** The file layout constants of vnmcore/src/container/header.rs and recipient.rs. */
module Layout {
  const HEADER_SIZE: nat := 512
  const HEADER_REGION_SIZE: nat := 1024
  const SLOT_SIZE: nat := 32_768

  const MAX_PASSWORD_SLOTS: nat := 8
  const MAX_KEY_SLOTS: nat := 8

  const X25519_PK_SIZE: nat := 32
  const CT_SIZE: nat := 1568
  const VNMB_ENCRYPTED_32_MAX: nat := 143
  const PW_SLOT_SIZE: nat := 32 + 1 + VNMB_ENCRYPTED_32_MAX
  const KEY_SLOT_SIZE: nat := X25519_PK_SIZE + CT_SIZE + VNMB_ENCRYPTED_32_MAX

  const RECIPIENT_AREA_SIZE: nat := MAX_PASSWORD_SLOTS * PW_SLOT_SIZE + MAX_KEY_SLOTS * KEY_SLOT_SIZE
  /** Byte offset of slot 0: 16,376. */
  const DATA_AREA_OFFSET: nat := HEADER_REGION_SIZE + RECIPIENT_AREA_SIZE
}
