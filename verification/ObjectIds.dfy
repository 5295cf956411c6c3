/** Object numbers with a meaning of their own (yaffs_guts.h). */
module ObjectIds {
  const OBJECTID_UNLINKED: nat := 3
  const OBJECTID_DELETED: nat := 4
  const OBJECTID_SUMMARY: nat := 0x10
}
