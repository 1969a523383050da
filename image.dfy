/**
  The disk-image instance a virtual machine borrows from the image manager
  (`image.Instance`; the image package is not part of this model). The VM
  reads its disk file and declared NIC, and releases it once when QEMU exits.
*/
module Image {

  class Instance {
    /** Path of the instance's qcow2 disk file (`DiskFile()`). */
    const diskFile: string
    /** NIC device model of the image's machine profile (`Machine().Network.Device`). */
    const nicDevice: string
    /** MAC address of the image's machine profile (`Machine().Network.MAC`). */
    const mac: string
    /** Whether `Release()` has been called; the instance may be released once. */
    var released: bool

    constructor (diskFile: string, nicDevice: string, mac: string)
      ensures this.diskFile == diskFile && this.nicDevice == nicDevice && this.mac == mac
      ensures !released
    {
      this.diskFile := diskFile;
      this.nicDevice := nicDevice;
      this.mac := mac;
      released := false;
    }

    /** Hands the instance back to the image manager; a second release is a misuse. */
    method Release()
      requires !released
      modifies this
      ensures released
    {
      released := true;
    }
  }
}
